/** The bus's dispatch order, stated on the events themselves. */
module Dispatch {
  import opened Seqs
  import opened EventBus

  /** Kinds of content from most to least important; any other kind comes after them all. */
  const KINDS: seq<set<string>> :=
    [{"operator.command"}, {"chat.donation"}, {"game.event"}, {"chat.message", "speech.input"}, {"stream.event"}]

  predicate OfClass(kind: string, i: nat) {
    if i < |KINDS| then kind in KINDS[i] else i == |KINDS| && forall j :: 0 <= j < |KINDS| ==> kind !in KINDS[j]
  }

  /** By class, then by sequence number. */
  ghost predicate Before(a: Event, b: Event) {
    exists i: nat, j: nat :: OfClass(a.kind, i) && OfClass(b.kind, j) && (i < j || (i == j && a.sequence <= b.sequence))
  }

  lemma ClassIsRank(kind: string, i: nat)
    ensures OfClass(kind, i) <==> KindRank(kind) == i
  {
    assert KINDS[0] == {"operator.command"} && KINDS[1] == {"chat.donation"} && KINDS[2] == {"game.event"}
           && KINDS[3] == {"chat.message", "speech.input"} && KINDS[4] == {"stream.event"};
    KindsDiffer();
    assert OfClass(kind, KindRank(kind));
    assert forall a: nat, b: nat :: OfClass(kind, a) && OfClass(kind, b) ==> a == b;
  }

  /** The kind names are told apart by their letters. */
  lemma KindsDiffer()
    ensures var k := ["operator.command", "chat.donation", "game.event", "chat.message", "speech.input",
                      "stream.event"];
            forall i, j :: 0 <= i < j < |k| ==> k[i] != k[j]
  {
    assert "operator.command"[0] == 'o' && "chat.donation"[0] == 'c' && "game.event"[0] == 'g';
    assert "chat.message"[0] == 'c' && "speech.input"[0] == 's' && "stream.event"[0] == 's';
    assert "chat.donation"[5] == 'd' && "chat.message"[5] == 'm' && "speech.input"[1] == 'p'
        && "stream.event"[1] == 't';
  }

  lemma BeforeIsNotAfter(a: Event, b: Event)
    ensures Before(a, b) <==> NotAfter(Ranked(a), Ranked(b))
  {
    forall i: nat, j: nat
      ensures OfClass(a.kind, i) <==> KindRank(a.kind) == i
      ensures OfClass(b.kind, j) <==> KindRank(b.kind) == j
    {
      ClassIsRank(a.kind, i);
      ClassIsRank(b.kind, j);
    }
    hide OfClass, KindRank;
    assert OfClass(a.kind, KindRank(a.kind)) && OfClass(b.kind, KindRank(b.kind));
  }

  /** A drain after any publications, exactly: first every control event in arrival order, then as many
      content events as the limit admits, in order of class and sequence, and none left out stands before
      one that is dispatched. */
  lemma DrainExactly(limit: nat, dropped: nat, events: seq<Event>)
    ensures var control, content := Filter(events, IsControl), Filter(events, IsContent);
            var r := Dispatched(PublishAll(limit, Bus([], [], dropped), events));
            && |r| == |control| + Min(limit, |content|)
            && r[..|control|] == control
            && (forall e :: e in r[|control|..] ==> e in content)
            && (forall i, j :: |control| <= i < j < |r| ==> Before(r[i], r[j]))
            && (forall x, y :: x in r[|control|..] && y in content && y !in r[|control|..] ==> Before(x, y))
            && (|content| <= limit ==> multiset(r[|control|..]) == multiset(content))
  {
    var control, content := Filter(events, IsControl), Filter(events, IsContent);
    var r := Dispatched(PublishAll(limit, Bus([], [], dropped), events));
    DrainIsOfflineSort(limit, dropped, events);
    hide Dispatched, PublishAll, Filter;
    BestOfContent(limit, content);
    assert r[|control|..] == Best(limit, content);
    assert forall i :: |control| <= i < |r| ==> r[i] == r[|control|..][i - |control|];
  }

  /** The content part of the offline form. */
  function Best(limit: nat, content: seq<Event>): seq<Event> {
    Map(Take(SortBy(Map(content, Ranked), NotAfter), limit), EventOf)
  }

  lemma BestOfContent(limit: nat, content: seq<Event>)
    ensures var b := Best(limit, content);
            && |b| == Min(limit, |content|)
            && (forall e :: e in b ==> e in content)
            && (forall i, j :: 0 <= i < j < |b| ==> Before(b[i], b[j]))
            && (forall x, y :: x in b && y in content && y !in b ==> Before(x, y))
            && (|content| <= limit ==> multiset(b) == multiset(content))
  {
    var queued := Map(content, Ranked);
    var all := (q: Queued) => true;
    var top := Take(SortBy(queued, NotAfter), limit);
    NotAfterIsOrder();
    FilterAll(queued, all);
    TopOfSelection(queued, all, NotAfter, limit);
    var b := Best(limit, content);
    hide SortBy, Filter, NotAfter, KindRank, Before;
    assert forall q :: q in queued ==> q == Ranked(q.event) && q.event in content;
    forall i | 0 <= i < |b| ensures top[i] in top && top[i] == Ranked(b[i]) && b[i] in content {
    }
    forall i, j | 0 <= i < j < |b| ensures Before(b[i], b[j]) {
      BeforeIsNotAfter(b[i], b[j]);
    }
    forall x, y | x in b && y in content && y !in b ensures Before(x, y) {
      LeftOut(content, top, b, x, y);
      BeforeIsNotAfter(x, y);
    }
    if |content| <= limit {
      WholeContent(limit, content);
    }
  }

  lemma WholeContent(limit: nat, content: seq<Event>)
    requires |content| <= limit
    ensures multiset(Best(limit, content)) == multiset(content)
  {
    var queued := Map(content, Ranked);
    SortKeepsEvents(queued);
    assert Map(queued, EventOf) == content;
    hide SortBy;
  }

  lemma LeftOut(content: seq<Event>, top: seq<Queued>, b: seq<Event>, x: Event, y: Event)
    requires b == Map(top, EventOf) && x in b && y in content && y !in b
    requires forall q :: q in top ==> q == Ranked(q.event)
    requires forall p, q :: p in top && q in Map(content, Ranked) && q !in top ==> NotAfter(p, q)
    ensures NotAfter(Ranked(x), Ranked(y))
  {
    var i :| 0 <= i < |b| && b[i] == x;
    assert top[i] in top && top[i] == Ranked(x);
    var k :| 0 <= k < |content| && content[k] == y;
    assert Map(content, Ranked)[k] == Ranked(y);
    forall m | 0 <= m < |top| ensures top[m] != Ranked(y) {
      assert b[m] == top[m].event && b[m] in b;
    }
  }

  lemma MapSnoc(s: seq<Queued>, x: Queued)
    ensures Map(s + [x], EventOf) == Map(s, EventOf) + [EventOf(x)]
  {
  }

  lemma {:induction false} InsertKeepsEvents(s: seq<Queued>, x: Queued)
    ensures multiset(Map(Insert(s, x, NotAfter), EventOf)) == multiset(Map(s, EventOf)) + multiset{EventOf(x)}
  {
    MapSnoc(s, x);
    if s != [] && !NotAfter(Last(s), x) {
      InsertKeepsEvents(Front(s), x);
      MapSnoc(Insert(Front(s), x, NotAfter), Last(s));
      assert s == Front(s) + [Last(s)];
      MapSnoc(Front(s), Last(s));
    }
  }

  lemma {:induction false} SortKeepsEvents(s: seq<Queued>)
    ensures multiset(Map(SortBy(s, NotAfter), EventOf)) == multiset(Map(s, EventOf))
  {
    if s != [] {
      SortKeepsEvents(Front(s));
      InsertKeepsEvents(SortBy(Front(s), NotAfter), Last(s));
      assert s == Front(s) + [Last(s)];
      MapSnoc(Front(s), Last(s));
    }
  }

  predicate SameKey(a: Queued, b: Queued) { NotAfter(a, b) && NotAfter(b, a) }

  /** The sort is stable: events of one class and sequence number keep their order of arrival. */
  lemma TiesKeepArrivalOrder(content: seq<Queued>, key: Queued)
    ensures Filter(SortBy(content, NotAfter), (q: Queued) => SameKey(q, key))
            == Filter(content, (q: Queued) => SameKey(q, key))
  {
    var tied := (q: Queued) => SameKey(q, key);
    NotAfterIsOrder();
    FilterSort(content, NotAfter, tied);
    FilterMembers(content, tied);
    SortOfTied(Filter(content, tied), NotAfter);
  }

  lemma {:induction false} SortOfTied(s: seq<Queued>, le: (Queued, Queued) -> bool)
    requires forall a, b :: a in s && b in s ==> le(a, b)
    ensures SortBy(s, le) == s
  {
    if s != [] {
      SortOfTied(Front(s), le);
      assert s == Front(s) + [Last(s)];
      if Front(s) != [] {
        assert Last(Front(s)) in s && Last(s) in s;
      }
    }
  }
}
