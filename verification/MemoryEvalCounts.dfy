/** What a measured row counts, what the request budget takes, and what a comparison concludes, each in the
    fixture's and the delivery's own terms. */
module MemoryEvalCounts {
  import opened Seqs
  import opened Utf8
  import opened Words
  import opened MemoryModel
  import opened MemoryEval

  // ---- Counting ------------------------------------------------------------

  /** The places of a list at which something holds. */
  function Where<T(!new)>(s: seq<T>, p: T -> bool): set<int> { set i | 0 <= i < |s| && p(s[i]) }

  lemma {:induction false} FilterCountsPlaces<T(!new)>(s: seq<T>, p: T -> bool)
    ensures |Filter(s, p)| == |Where(s, p)|
  {
    if s != [] {
      var n := |s| - 1;
      FilterCountsPlaces(Front(s), p);
      assert Where(s, p) == Where(Front(s), p) + (if p(s[n]) then {n} else {});
      assert s == Front(s) + [Last(s)];
      FilterSnoc(Front(s), Last(s), p);
    }
  }

  /** When the event of a claim happened: as declared, or when it was recorded. */
  function HappenedAt(c: Claim): nat {
    match c.eventAt
    case Some(at) => at
    case None => c.recordedAt
  }

  predicate DistinctIds(claims: seq<Claim>) {
    forall i, j :: 0 <= i < j < |claims| ==> claims[i].eventId != claims[j].eventId
  }

  lemma {:induction false} EventTimeExactly(claims: seq<Claim>, c: Claim)
    requires DistinctIds(claims) && c in claims
    ensures EventAt(claims, c.eventId) == HappenedAt(c)
  {
    if claims[0] != c {
      assert c in claims[1..];
      var k :| 0 < k < |claims| && claims[k] == c;
      EventTimeExactly(claims[1..], c);
    }
  }

  /** The claim a fixture declares under an id. */
  ghost function ClaimOf(claims: seq<Claim>, id: Text): (c: Claim)
    requires Known(claims, id)
    ensures c in claims && c.eventId == id
  {
    var c :| c in claims && c.eventId == id;
    c
  }

  /** The places at which a delivery goes on to an event that happened later than the one before. */
  ghost function Inversions(claims: seq<Claim>, delivered: seq<Text>): set<int>
    requires AllKnown(claims, delivered)
  {
    set i | 0 <= i < |delivered| - 1 && GoesOnToLater(claims, delivered, i)
  }

  ghost predicate GoesOnToLater(claims: seq<Claim>, delivered: seq<Text>, i: int)
    requires AllKnown(claims, delivered) && 0 <= i < |delivered| - 1
  {
    HappenedAt(ClaimOf(claims, delivered[i + 1])) > HappenedAt(ClaimOf(claims, delivered[i]))
  }

  lemma {:induction false} OrderErrorsExactly(claims: seq<Claim>, delivered: seq<Text>)
    requires DistinctIds(claims) && AllKnown(claims, delivered)
    ensures TemporalErrors(claims, delivered) == |Inversions(claims, delivered)|
  {
    if |delivered| < 2 {
      assert Inversions(claims, delivered) == {};
    } else {
      var n := |delivered| - 1;
      var before := Front(delivered);
      assert delivered[n] in delivered && delivered[n - 1] in delivered;
      assert forall id :: id in before ==> id in delivered;
      OrderErrorsExactly(claims, before);
      EventTimeExactly(claims, ClaimOf(claims, delivered[n]));
      EventTimeExactly(claims, ClaimOf(claims, delivered[n - 1]));
      SplitInversions(claims, delivered);
      assert (n - 1) !in Inversions(claims, before);
    }
  }

  lemma SplitInversions(claims: seq<Claim>, delivered: seq<Text>)
    requires |delivered| >= 2 && AllKnown(claims, delivered) && AllKnown(claims, Front(delivered))
    ensures var n := |delivered| - 1;
            Inversions(claims, delivered)
            == Inversions(claims, Front(delivered)) + (if GoesOnToLater(claims, delivered, n - 1) then {n - 1} else {})
  {
    var before, n := Front(delivered), |delivered| - 1;
    forall i | 0 <= i < n - 1 ensures GoesOnToLater(claims, delivered, i) <==> GoesOnToLater(claims, before, i) {
      assert before[i] == delivered[i] && before[i + 1] == delivered[i + 1];
    }
    hide GoesOnToLater;
  }

  function Hits(ids: seq<Text>, among: seq<Text>): set<int> { set i | 0 <= i < |ids| && ids[i] in among }

  lemma HitsAreCounted(ids: seq<Text>, among: seq<Text>)
    ensures |Filter(ids, In(among))| == |Hits(ids, among)|
  {
    FilterCountsPlaces(ids, In(among));
    assert Where(ids, In(among)) == Hits(ids, among);
  }

  /** The edges both of whose claims were delivered, and the claims whose text was changed. */
  function SpansAt(edges: seq<Edge>, delivered: seq<Text>): set<int> {
    set i | 0 <= i < |edges| && edges[i].effect in delivered && edges[i].cause in delivered
  }

  function ChangedAt(claims: seq<DeliveredClaim>): set<int> {
    set i | 0 <= i < |claims| && claims[i].deliveredText != claims[i].retainedText
  }

  lemma SpansAreCounted(edges: seq<Edge>, delivered: seq<Text>)
    ensures |Filter(edges, BothDelivered(delivered))| == |SpansAt(edges, delivered)|
  {
    FilterCountsPlaces(edges, BothDelivered(delivered));
    assert Where(edges, BothDelivered(delivered)) == SpansAt(edges, delivered);
  }

  lemma ChangedAreCounted(claims: seq<DeliveredClaim>)
    ensures |Filter(claims, Shortened)| == |ChangedAt(claims)|
  {
    FilterCountsPlaces(claims, Shortened);
    assert Where(claims, Shortened) == ChangedAt(claims);
  }

  /** A measured row, exactly: each figure counts places of the delivered list or of the fixture's lists. */
  lemma RowExactly(c: Case, d: Delivery)
    requires DistinctIds(c.claims) && AllKnown(c.claims, Map(d.claims, ClaimId))
    ensures MeasureCase(c, d).Some?
    ensures var r, delivered := MeasureCase(c, d).value, Map(d.claims, ClaimId);
            && r.id == c.id && r.delivered == delivered && r.refusedItems == d.refused
            && r.temporalErrors == |Inversions(c.claims, delivered)|
            && r.staleUse == |Hits(delivered, c.stale)| && r.absentViolations == |Hits(delivered, c.mustNotDeliver)|
            && r.correctness == (if c.mustDeliver == [] then 1.0
                                 else |Hits(c.mustDeliver, delivered)| as real / |c.mustDeliver| as real)
            && r.causalSpans == |SpansAt(d.causalEdges, delivered)| && r.truncated == |ChangedAt(d.claims)|
            && (r.withinItems <==> |d.claims| <= 12 && forall x :: x in d.claims ==> |x.deliveredText| <= 4096)
            && (r.withinBytes <==> c.query.chargedBytes + TextBytes(d.claims) <= 8192)
  {
    var delivered := Map(d.claims, ClaimId);
    OrderErrorsExactly(c.claims, delivered);
    HitsAreCounted(delivered, c.stale);
    HitsAreCounted(delivered, c.mustNotDeliver);
    HitsAreCounted(c.mustDeliver, delivered);
    SpansAreCounted(d.causalEdges, delivered);
    ChangedAreCounted(d.claims);
    hide Filter, TemporalErrors, Inversions, Hits, SpansAt, ChangedAt, TextBytes, DistinctIds;
  }

  // ---- The request budget --------------------------------------------------

  /** Not too long for one item. */
  function Fits(): Entry -> bool { (e: Entry) => |e.claim| <= 4096 }

  /** The longest front of `small` that is within the item and byte bounds: it stops only at the end, at the
      item bound, or at an item that no longer fits. */
  predicate LongestFront(r: seq<Entry>, small: seq<Entry>, used: nat, taken: nat) {
    && r <= small
    && (r == [] || used + Bytes(r) <= 8192) && taken + |r| <= 12
    && (|r| == |small| || taken + |r| == 12 || used + Bytes(r) + |small[|r|].claim| > 8192)
  }

  lemma LongerFront(e: Entry, r: seq<Entry>, small: seq<Entry>, used: nat, taken: nat)
    requires LongestFront(r, small, used + |e.claim|, taken + 1) && used + |e.claim| <= 8192
    ensures LongestFront([e] + r, [e] + small, used, taken)
  {
    TakenOne(e, r, small);
    if r == [] {
      NoBytes();
    }
    hide Bytes;
  }

  /** Of the items not too long for themselves, the budget takes the longest front it can. */
  lemma {:induction false} BudgetTakesAllItCan(entries: seq<Entry>, used: nat, taken: nat)
    requires taken <= 12
    ensures LongestFront(BoundedPrefix(entries, used, taken), Filter(entries, Fits()), used, taken)
  {
    if entries != [] {
      SmallHead(entries);
      var rest, size := entries[1..], |entries[0].claim|;
      if taken < 12 && size > 4096 {
        BudgetTakesAllItCan(rest, used, taken);
        assert [] + Filter(rest, Fits()) == Filter(rest, Fits());
      } else if taken < 12 && used + size <= 8192 {
        BudgetTakesAllItCan(rest, used + size, taken + 1);
        hide LongestFront, Filter;
        LongerFront(entries[0], BoundedPrefix(rest, used + size, taken + 1), Filter(rest, Fits()), used, taken);
      } else {
        NoBytes();
      }
    }
  }

  lemma NoBytes()
    ensures Bytes([]) == 0
  {
  }

  lemma SmallHead(entries: seq<Entry>)
    requires entries != []
    ensures Filter(entries, Fits())
            == (if |entries[0].claim| <= 4096 then [entries[0]] else []) + Filter(entries[1..], Fits())
  {
    FilterOne(entries[0]);
    assert entries == [entries[0]] + entries[1..];
    FilterConcat([entries[0]], entries[1..], Fits());
  }

  lemma FilterOne(e: Entry)
    ensures Filter([e], Fits()) == if |e.claim| <= 4096 then [e] else []
  {
    assert Front([e]) == [];
  }

  lemma TakenOne(e: Entry, r: seq<Entry>, small: seq<Entry>)
    requires r <= small
    ensures [e] + r <= [e] + small && Bytes([e] + r) == |e.claim| + Bytes(r)
    ensures |r| < |small| ==> ([e] + small)[|r| + 1] == small[|r|]
  {
    assert ([e] + r)[1..] == r;
  }

  // ---- The comparison ------------------------------------------------------

  /** A row that disqualifies a candidate. */
  predicate Disqualifies(r: CaseReport) {
    r.staleUse != 0 || r.absentViolations != 0 || r.truncated != 0 || r.refusedItems != 0
        || !(r.withinItems && r.withinBytes)
  }

  ghost predicate Disqualified(rows: seq<CaseReport>) { exists i :: 0 <= i < |rows| && Disqualifies(rows[i]) }

  predicate Comparable(cases: seq<Case>, digest: Text, runtime: Report, candidate: Report) {
    ValidFixture(cases) && Accepted(cases, digest, runtime) && Accepted(cases, digest, candidate)
  }

  /** Fewer order errors over the rows, or a mean correctness higher by more than the tolerance. */
  predicate Better(runtime: Report, candidate: Report) {
    || SumOf(candidate.cases, TemporalErrorsOf) < SumOf(runtime.cases, TemporalErrorsOf)
    || candidate.totals.correctness - runtime.totals.correctness > 0.000000000001
  }

  /** The verdict, exactly: none unless the fixture is valid and both reports are accepted; rejected for any
      disqualifying row; otherwise an improvement if and only if the candidate is better. */
  lemma VerdictExactly(cases: seq<Case>, digest: Text, runtime: Report, candidate: Report)
    ensures Compare(cases, digest, runtime, candidate)
            == if !Comparable(cases, digest, runtime, candidate) then None
               else if Disqualified(candidate.cases) then Some(RejectedCandidate)
               else if Better(runtime, candidate) then Some(Improvement)
               else Some(NoImprovement)
  {
    RegressingRow(candidate.cases);
    if Comparable(cases, digest, runtime, candidate) {
      BetterIsWinning(cases, digest, runtime, candidate);
    }
    hide Regresses, ValidFixture, Accepted, Better, Wins, Disqualified;
  }

  lemma BetterIsWinning(cases: seq<Case>, digest: Text, runtime: Report, candidate: Report)
    requires Accepted(cases, digest, runtime) && Accepted(cases, digest, candidate)
    ensures Wins(runtime.totals, candidate.totals) <==> Better(runtime, candidate)
  {
    hide SumOf;
    AcceptedNumbersAreDerived(cases, digest, runtime);
    AcceptedNumbersAreDerived(cases, digest, candidate);
    hide Accepted;
    FewerErrors(runtime.totals.temporalErrors, candidate.totals.temporalErrors);
  }

  lemma RegressingRow(rows: seq<CaseReport>)
    ensures (exists x :: x in rows && Regresses(x)) <==> Disqualified(rows)
  {
    if x :| x in rows && Regresses(x) {
      var i :| 0 <= i < |rows| && rows[i] == x;
      assert Disqualifies(rows[i]);
    }
    if i :| 0 <= i < |rows| && Disqualifies(rows[i]) {
      assert rows[i] in rows && Regresses(rows[i]);
    }
  }

  lemma FewerErrors(a: nat, b: nat)
    ensures b as real + TOLERANCE < a as real <==> b < a
  {
    if b < a {
      assert b as real + 1.0 <= a as real;
    }
  }
}
