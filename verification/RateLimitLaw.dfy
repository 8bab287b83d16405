/** The token bucket as an exact law: when a request is admitted, without mentioning any bucket. */
module RateLimitLaw {
  import opened Seqs
  import opened RateLimit

  /** What the burst and the clock's forward movement since request `lo` leave unspent at request `n`. */
  function Unspent(opts: Options, times: seq<real>, lo: nat, n: nat): real
    requires lo <= n < |times|
  {
    opts.burst + Credit(opts, Rise(times, lo, n + 1)) - AdmittedIn(opts, times, lo, n) as real
  }

  /** The tokens request `n` finds. */
  function TokensAt(opts: Options, times: seq<real>, n: nat): real
    requires n < |times|
  {
    Charged(opts, BucketAfter(opts, times[..n]), times[n]).tokens
  }

  /** What the clock's rise to request `n` pays in. */
  function Paid(opts: Options, times: seq<real>, n: nat): real
    requires 0 < n < |times|
  {
    var step := times[n] - times[n - 1];
    Credit(opts, if step > 0.0 then step else 0.0)
  }

  /** What the request before `n` took. */
  function Took(opts: Options, times: seq<real>, n: nat): real
    requires 0 < n < |times|
  {
    if TokensAt(opts, times, n - 1) >= 1.0 then 1.0 else 0.0
  }

  /** One more request: less what the last one took, plus what the clock's rise pays. */
  lemma UnspentStep(opts: Options, times: seq<real>, lo: nat, n: nat)
    requires lo < n < |times|
    ensures Unspent(opts, times, lo, n) == Unspent(opts, times, lo, n - 1) - Took(opts, times, n) + Paid(opts, times, n)
  {
    var step := times[n] - times[n - 1];
    CreditAdds(opts, Rise(times, lo, n), if step > 0.0 then step else 0.0);
  }

  lemma UnspentAtOnce(opts: Options, times: seq<real>, n: nat)
    requires n < |times|
    ensures Unspent(opts, times, n, n) == opts.burst
  {
    assert AdmittedIn(opts, times, n, n) == 0 && Credit(opts, 0.0) == 0.0;
  }

  /** The tokens follow, up to the burst. */
  lemma TokensStep(opts: Options, times: seq<real>, n: nat)
    requires 0 < n < |times|
    ensures var left := TokensAt(opts, times, n - 1) - Took(opts, times, n) + Paid(opts, times, n);
            TokensAt(opts, times, n) == if left < opts.burst then left else opts.burst
  {
    BucketSnoc(opts, times, n - 1);
  }

  /** The tokens are the least that is unspent since any earlier request. */
  lemma {:induction false} TokensAreLeastUnspent(opts: Options, times: seq<real>, n: nat) returns (least: nat)
    requires n < |times|
    ensures least <= n && TokensAt(opts, times, n) == Unspent(opts, times, least, n)
    ensures forall lo :: 0 <= lo <= n ==> TokensAt(opts, times, n) <= Unspent(opts, times, lo, n)
  {
    UnspentAtOnce(opts, times, n);
    if n == 0 {
      least := 0;
      assert times[..0] == [] && Credit(opts, 0.0) == 0.0;
    } else {
      hide Unspent, TokensAt, Took, Paid;
      var before := TokensAreLeastUnspent(opts, times, n - 1);
      TokensStep(opts, times, n);
      UnspentStep(opts, times, before, n);
      forall lo | 0 <= lo < n ensures TokensAt(opts, times, n) <= Unspent(opts, times, lo, n) {
        UnspentStep(opts, times, lo, n);
        assert TokensAt(opts, times, n - 1) <= Unspent(opts, times, lo, n - 1);
      }
      least := if TokensAt(opts, times, n) == opts.burst then n else before;
    }
  }

  /** One more admission beside `admitted` others is paid by the burst and what the clock rose. */
  predicate Affords(opts: Options, admitted: nat, rise: real) {
    (admitted + 1) as real <= opts.burst + (rise / 1000.0) * opts.rate
  }

  /** Since request `lo`, the admissions and request `n` are paid for. */
  predicate PaidFor(opts: Options, times: seq<real>, lo: nat, n: nat)
    requires lo <= n < |times|
  {
    Affords(opts, AdmittedIn(opts, times, lo, n), Rise(times, lo, n + 1))
  }

  lemma AffordsMeans(opts: Options, admitted: nat, rise: real)
    ensures Affords(opts, admitted, rise) <==> opts.burst + Credit(opts, rise) - admitted as real >= 1.0
  {
  }

  lemma PaidForIsUnspent(opts: Options, times: seq<real>, lo: nat, n: nat)
    requires lo <= n < |times|
    ensures PaidFor(opts, times, lo, n) <==> Unspent(opts, times, lo, n) >= 1.0
  {
    hide Affords, AdmittedIn, Rise, Credit;
    AffordsMeans(opts, AdmittedIn(opts, times, lo, n), Rise(times, lo, n + 1));
  }

  /** The exact law, for every clock: a request is admitted if and only if, since every earlier request of
      its source, the admissions and itself are within the burst and the rate times the clock's rise. */
  lemma AdmittedExactlyWhen(opts: Options, times: seq<real>, n: nat)
    requires n < |times|
    ensures Admits(opts, BucketAfter(opts, times[..n]), times[n])
            <==> forall lo: nat :: lo <= n ==> PaidFor(opts, times, lo, n)
  {
    var least := TokensAreLeastUnspent(opts, times, n);
    assert Admits(opts, BucketAfter(opts, times[..n]), times[n]) <==> TokensAt(opts, times, n) >= 1.0;
    hide PaidFor, Unspent, TokensAt, Admits;
    PaidForIsUnspent(opts, times, least, n);
    forall lo: nat | lo <= n && TokensAt(opts, times, n) >= 1.0 ensures PaidFor(opts, times, lo, n) {
      PaidForIsUnspent(opts, times, lo, n);
      assert TokensAt(opts, times, n) <= Unspent(opts, times, lo, n);
    }
  }

  /** With a clock that never goes back the rise is the time elapsed. */
  lemma PaidForByElapsedTime(opts: Options, times: seq<real>, lo: nat, n: nat)
    requires NonDecreasing(times) && lo <= n < |times|
    ensures PaidFor(opts, times, lo, n) <==> Affords(opts, AdmittedIn(opts, times, lo, n), times[n] - times[lo])
  {
    hide Affords, AdmittedIn;
    MonotoneRise(times, lo, n + 1);
  }

  /** The same of a list of decisions, with no bucket in sight. */
  predicate PaidForBy(opts: Options, times: seq<real>, admitted: seq<bool>, lo: nat, n: nat)
    requires lo <= n < |times| == |admitted|
  {
    Affords(opts, Count(admitted[lo..n]), Rise(times, lo, n + 1))
  }

  /** Every decision is the law's, given those before it. */
  ghost predicate Lawful(opts: Options, times: seq<real>, admitted: seq<bool>) {
    && |admitted| == |times|
    && forall n :: 0 <= n < |times| ==>
         (admitted[n] <==> forall lo: nat :: lo <= n ==> PaidForBy(opts, times, admitted, lo, n))
  }

  function Count(s: seq<bool>): nat { if s == [] then 0 else Count(Front(s)) + (if Last(s) then 1 else 0) }

  /** The decisions of a trace. */
  function Decisions(opts: Options, times: seq<real>): (r: seq<bool>)
    ensures |r| == |times|
    ensures forall n :: 0 <= n < |times| ==> r[n] == Admits(opts, BucketAfter(opts, times[..n]), times[n])
  {
    seq(|times|, (n: int) requires 0 <= n < |times| => Admits(opts, BucketAfter(opts, times[..n]), times[n]))
  }

  lemma {:induction false} CountIsAdmitted(opts: Options, times: seq<real>, lo: nat, n: nat)
    requires lo <= n <= |times|
    ensures Count(Decisions(opts, times)[lo..n]) == AdmittedIn(opts, times, lo, n)
    decreases n
  {
    var d := Decisions(opts, times);
    if lo < n {
      CountIsAdmitted(opts, times, lo, n - 1);
      assert Front(d[lo..n]) == d[lo..n - 1] && Last(d[lo..n]) == d[n - 1];
    }
  }

  /** The law determines the whole trace: the decisions satisfy it, and no others do. */
  lemma DecisionsAreTheLawfulOnes(opts: Options, times: seq<real>, admitted: seq<bool>)
    ensures Lawful(opts, times, admitted) <==> admitted == Decisions(opts, times)
  {
    var d := Decisions(opts, times);
    DecisionsAreLawful(opts, times);
    if Lawful(opts, times, admitted) {
      LawfulUnique(opts, times, admitted, d, |times|);
      assert admitted[..|times|] == admitted && d[..|times|] == d;
    }
  }

  lemma DecisionsAreLawful(opts: Options, times: seq<real>)
    ensures Lawful(opts, times, Decisions(opts, times))
  {
    hide PaidFor, PaidForBy, Admits;
    var d := Decisions(opts, times);
    forall n: nat | n < |times| ensures d[n] <==> forall lo: nat :: lo <= n ==> PaidForBy(opts, times, d, lo, n) {
      AdmittedExactlyWhen(opts, times, n);
      forall lo: nat | lo <= n ensures PaidForBy(opts, times, d, lo, n) <==> PaidFor(opts, times, lo, n) {
        SamePayment(opts, times, lo, n);
      }
    }
  }

  lemma SamePayment(opts: Options, times: seq<real>, lo: nat, n: nat)
    requires lo <= n < |times|
    ensures PaidForBy(opts, times, Decisions(opts, times), lo, n) <==> PaidFor(opts, times, lo, n)
  {
    hide Affords, Rise, Count, AdmittedIn;
    CountIsAdmitted(opts, times, lo, n);
  }

  lemma {:induction false} LawfulUnique(opts: Options, times: seq<real>, a: seq<bool>, b: seq<bool>, n: nat)
    requires Lawful(opts, times, a) && Lawful(opts, times, b) && n <= |times|
    ensures a[..n] == b[..n]
  {
    hide PaidForBy;
    if n > 0 {
      var m: nat := n - 1;
      LawfulUnique(opts, times, a, b, m);
      forall lo: nat | lo <= m ensures PaidForBy(opts, times, a, lo, m) <==> PaidForBy(opts, times, b, lo, m) {
        SamePast(opts, times, a, b, lo, m);
      }
      assert a[m] == b[m];
      assert a[..n] == a[..m] + [a[m]] && b[..n] == b[..m] + [b[m]];
    }
  }

  lemma SamePast(opts: Options, times: seq<real>, a: seq<bool>, b: seq<bool>, lo: nat, n: nat)
    requires lo <= n < |times| == |a| == |b| && a[..n] == b[..n]
    ensures PaidForBy(opts, times, a, lo, n) <==> PaidForBy(opts, times, b, lo, n)
  {
    assert a[lo..n] == a[..n][lo..] && b[lo..n] == b[..n][lo..];
  }

  lemma PositiveFactor(a: real, b: real)
    requires b >= 0.0 && a * b >= 1.0
    ensures a > 0.0
  {
  }

  /** A source that waited one token's worth of time is served, whatever it asked before. */
  lemma WaitingIsEnough(opts: Options, times: seq<real>, n: nat)
    requires ValidOptions(opts) && opts.burst >= 1.0 && 0 < n < |times|
    requires ((times[n] - times[n - 1]) / 1000.0) * opts.rate >= 1.0
    ensures Admits(opts, BucketAfter(opts, times[..n]), times[n])
  {
    PositiveFactor((times[n] - times[n - 1]) / 1000.0, opts.rate);
    BucketStaysInRange(opts, times[..n]);
    var before := times[..n];
    assert before != [] && Last(before) == times[n - 1];
    var b := BucketAfter(opts, before);
    assert b.Some? && b.value.lastRefill == times[n - 1] && b.value.tokens >= 0.0;
    assert Credit(opts, Elapsed(b.value, times[n])) >= 1.0;
  }

  // ---- The limiter ---------------------------------------------------------

  /** The limiter's decision on content, exactly: too large a payload is dropped for its size, and any
      other is admitted by the law over its own source's requests that were not too large. */
  lemma ContentDecidedExactly(opts: Options, ops: seq<Op>, source: string, bytes: nat, at: real)
    ensures var times := TimesOf(opts, source, ops) + [at];
            var n := |times| - 1;
            var fits := forall lo: nat :: lo <= n ==> PaidFor(opts, times, lo, n);
            Decide(opts, Run(opts, ops), Content(source, bytes, at))
            == Some(if bytes > opts.maxPayloadBytes then DroppedSize else if fits then Admitted else DroppedRate)
  {
    var times := TimesOf(opts, source, ops) + [at];
    var n := |times| - 1;
    assert times[..n] == TimesOf(opts, source, ops) && times[n] == at;
    AdmittedExactlyWhen(opts, times, n);
    hide PaidFor, Admits, Run, TimesOf;
    if bytes <= opts.maxPayloadBytes {
      RunsDecideBySource(opts, ops, source, bytes, at);
    }
  }

  function Controls(ops: seq<Op>): nat {
    if ops == [] then 0 else Controls(Front(ops)) + (if Last(ops).ControlPlane? then 1 else 0)
  }

  /** Control requests: as long as none is released, the first 64 are admitted and no more. */
  lemma {:induction false} ControlAdmitsSixtyFour(opts: Options, ops: seq<Op>)
    requires forall i :: 0 <= i < |ops| ==> !ops[i].ReleaseControl?
    ensures Run(opts, ops).controlDepth == Min(Controls(ops), 64)
    ensures Decide(opts, Run(opts, ops), ControlPlane) == Some(if Controls(ops) < 64 then Admitted else DroppedRate)
  {
    if ops != [] {
      ControlAdmitsSixtyFour(opts, Front(ops));
    }
  }

  /** A release gives one place back, if one is taken. */
  lemma ReleaseFreesOnePlace(opts: Options, ops: seq<Op>)
    ensures var depth := Run(opts, ops).controlDepth;
            Run(opts, ops + [ReleaseControl]).controlDepth == (if depth > 0 then depth - 1 else 0)
    ensures Decide(opts, Run(opts, ops + [ReleaseControl]), ControlPlane) == Some(Admitted)
  {
    SourcesAreIndependent(opts, ops, "");
    assert Front(ops + [ReleaseControl]) == ops;
  }
}
