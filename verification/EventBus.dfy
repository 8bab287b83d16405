/** The event bus: a bounded online queue that dispatches as if everything had been sorted offline. */
module EventBus {
  import opened Seqs

  datatype Plane = Control | Content

  datatype Event = Event(plane: Plane, kind: string, sequence: int, id: string)

  datatype Queued = Queued(event: Event, rank: nat)

  /** Rank by kind; smaller is more important, unknown kinds rank last. */
  function KindRank(kind: string): nat {
    if kind == "operator.command" then 0
    else if kind == "chat.donation" then 1
    else if kind == "game.event" then 2
    else if kind == "chat.message" || kind == "speech.input" then 3
    else if kind == "stream.event" then 4
    else 5
  }

  /** The dispatch comparator: ascending rank, then ascending sequence. */
  predicate NotAfter(a: Queued, b: Queued) {
    a.rank < b.rank || (a.rank == b.rank && a.event.sequence <= b.event.sequence)
  }

  function EventOf(q: Queued): Event { q.event }

  // ---- One step on values --------------------------------------------------

  datatype Bus = Bus(content: seq<Queued>, control: seq<Event>, dropped: nat)

  /** Position of the least important event; the latest insertion loses ties. */
  function Worst(content: seq<Queued>): (w: nat)
    requires content != []
    ensures w < |content|
  {
    if |content| == 1 then 0
    else
      var w := Worst(Front(content));
      if NotAfter(content[w], Last(content)) then |content| - 1 else w
  }

  function Publish(limit: nat, bus: Bus, event: Event): Bus {
    if event.plane == Control then bus.(control := bus.control + [event])
    else
      var content := bus.content + [Queued(event, KindRank(event.kind))];
      if |content| > limit
      then bus.(content := RemoveAt(content, Worst(content)), dropped := bus.dropped + 1)
      else bus.(content := content)
  }

  function PublishAll(limit: nat, bus: Bus, events: seq<Event>): Bus {
    if events == [] then bus else Publish(limit, PublishAll(limit, bus, Front(events)), Last(events))
  }

  function Dispatched(bus: Bus): seq<Event> { bus.control + Map(SortBy(bus.content, NotAfter), EventOf) }

  // ---- The offline form ----------------------------------------------------

  predicate IsControl(e: Event) { e.plane == Control }

  predicate IsContent(e: Event) { e.plane == Content }

  function Ranked(e: Event): Queued { Queued(e, KindRank(e.kind)) }

  /** Control events in arrival order, then the `limit` best of all content under one stable sort. */
  function Offline(limit: nat, events: seq<Event>): seq<Event> {
    Filter(events, IsControl) + Map(Take(SortBy(Map(Filter(events, IsContent), Ranked), NotAfter), limit), EventOf)
  }

  // ---- Refinement ----------------------------------------------------------

  lemma NotAfterIsOrder()
    ensures TotalPreorder(NotAfter)
  {
  }

  /** Nothing outranks the worst event, and everything behind it is strictly more important. */
  lemma {:induction false} WorstIsLastMaximum(content: seq<Queued>)
    requires content != []
    ensures var w := Worst(content);
            && (forall k :: 0 <= k < w ==> NotAfter(content[k], content[w]))
            && (forall k :: w < k < |content| ==> !NotAfter(content[w], content[k]))
  {
    if |content| > 1 {
      WorstIsLastMaximum(Front(content));
    }
  }

  /** In the stable sort, a last maximum comes last. */
  lemma {:induction false} MaximumSortsLast(a: seq<Queued>, x: Queued, b: seq<Queued>)
    requires forall y :: y in a ==> NotAfter(y, x)
    requires forall y :: y in b ==> !NotAfter(x, y)
    ensures SortBy(a + [x] + b, NotAfter) == SortBy(a + b, NotAfter) + [x]
  {
    if b == [] {
      assert a + [x] + b == a + [x] && a + b == a && Front(a + [x]) == a;
      SortMembers(a, NotAfter);
    } else {
      MaximumSortsLast(a, x, Front(b));
      assert Front(a + [x] + b) == a + [x] + Front(b);
      assert Front(a + b) == a + Front(b);
    }
  }

  lemma DroppingWorstDropsLast(content: seq<Queued>)
    requires content != []
    ensures SortBy(RemoveAt(content, Worst(content)), NotAfter) == Front(SortBy(content, NotAfter))
  {
    var w := Worst(content);
    var a, x, b := content[..w], content[w], content[w + 1..];
    WorstIsLastMaximum(content);
    SplitAround(content, w);
    forall y | y in a ensures NotAfter(y, x) {
      var k :| 0 <= k < |a| && a[k] == y;
      assert content[k] == y;
    }
    forall y | y in b ensures !NotAfter(x, y) {
      var k :| 0 <= k < |b| && b[k] == y;
      assert content[w + 1 + k] == y;
    }
    MaximumSortsLast(a, x, b);
  }

  /** Keeping `n` of a sorted list before or after an insertion gives the same `n`. */
  lemma {:induction false} TakeBeforeInsert(s: seq<Queued>, x: Queued, n: nat)
    requires Sorted(s, NotAfter)
    ensures Take(Insert(s, x, NotAfter), n) == Take(Insert(Take(s, n), x, NotAfter), n)
  {
    if |s| <= n {
      assert Take(s, n) == s;
    } else if NotAfter(Last(s), x) {
      assert n > 0 ==> NotAfter(s[n - 1], Last(s));
    } else {
      TakeBeforeInsert(Front(s), x, n);
      assert Take(Front(s), n) == Take(s, n);
    }
  }

  /** `bus` holds what an unbounded queue of `content` would keep of its `limit` best. */
  ghost predicate Keeps(limit: nat, bus: Bus, content: seq<Queued>) {
    && |bus.content| == Min(limit, |content|)
    && SortBy(bus.content, NotAfter) == Take(SortBy(content, NotAfter), limit)
  }

  lemma PublishKeeps(limit: nat, bus: Bus, content: seq<Queued>, event: Event)
    requires Keeps(limit, bus, content) && event.plane == Content
    ensures Keeps(limit, Publish(limit, bus, event), content + [Ranked(event)])
    ensures Publish(limit, bus, event).dropped + |Publish(limit, bus, event).content| == bus.dropped + |bus.content| + 1
  {
    var x := Ranked(event);
    var grown := bus.content + [x];
    assert Front(grown) == bus.content && Front(content + [x]) == content;
    NotAfterIsOrder();
    SortSorted(content, NotAfter);
    TakeBeforeInsert(SortBy(content, NotAfter), x, limit);
    assert Take(SortBy(content + [x], NotAfter), limit) == Take(SortBy(grown, NotAfter), limit);
    if |grown| > limit {
      DroppingWorstDropsLast(grown);
    }
  }

  lemma {:induction false} PublishAllKeeps(limit: nat, dropped: nat, events: seq<Event>)
    ensures var bus := PublishAll(limit, Bus([], [], dropped), events);
            && Keeps(limit, bus, Map(Filter(events, IsContent), Ranked))
            && bus.control == Filter(events, IsControl)
            && bus.dropped + |bus.content| + |bus.control| == dropped + |events|
  {
    if events != [] {
      PublishAllKeeps(limit, dropped, Front(events));
      var bus := PublishAll(limit, Bus([], [], dropped), Front(events));
      var before := Filter(Front(events), IsContent);
      if Last(events).plane == Content {
        PublishKeeps(limit, bus, Map(before, Ranked), Last(events));
        assert Map(before + [Last(events)], Ranked) == Map(before, Ranked) + [Ranked(Last(events))];
        assert Filter(events, IsControl) == Filter(Front(events), IsControl);
      } else {
        assert Filter(events, IsContent) == before;
      }
    }
  }

  /** Draining the bounded online queue gives exactly the offline answer, whatever was published
      since the last drain, and every published event is dispatched or counted as dropped. */
  lemma {:induction false} DrainIsOfflineSort(limit: nat, dropped: nat, events: seq<Event>)
    ensures var bus := PublishAll(limit, Bus([], [], dropped), events);
            && Dispatched(bus) == Offline(limit, events)
            && |Dispatched(bus)| + bus.dropped == |events| + dropped
  {
    PublishAllKeeps(limit, dropped, events);
  }

  // ---- The object ----------------------------------------------------------

  datatype Outcome = QueuedOk | DroppedOverflow

  class EventBus {
    const limit: nat
    var content: seq<Queued>
    var control: seq<Event>
    var dropped: nat
    /** Everything published since the last drain, and the drop count at that drain. */
    ghost var published: seq<Event>
    ghost var droppedBefore: nat

    ghost function Value(): Bus
      reads this
    {
      Bus(content, control, dropped)
    }

    ghost predicate Valid()
      reads this
    {
      Value() == PublishAll(limit, Bus([], [], droppedBefore), published)
    }

    constructor (limit: nat)
      ensures Valid() && this.limit == limit && published == [] && dropped == 0
    {
      this.limit := limit;
      content, control, dropped := [], [], 0;
      published, droppedBefore := [], 0;
    }

    /** The scan for the event to drop. */
    method FindWorst() returns (worst: nat)
      requires content != []
      ensures worst == Worst(content)
    {
      worst := 0;
      for i := 1 to |content|
        invariant worst < i && worst == Worst(content[..i])
      {
        assert Front(content[..i + 1]) == content[..i];
        var a, b := content[i], content[worst];
        if a.rank > b.rank || (a.rank == b.rank && a.event.sequence >= b.event.sequence) {
          worst := i;
        }
      }
      assert content[..|content|] == content;
    }

    method Publish(event: Event) returns (r: Outcome)
      requires Valid()
      modifies this
      ensures Valid() && published == old(published) + [event] && droppedBefore == old(droppedBefore)
      ensures |content| <= limit || event.plane == Control
      ensures dropped == old(dropped) + (if r == DroppedOverflow then 1 else 0)
      ensures r == DroppedOverflow <==> event.plane == Content && |old(content)| >= limit
    {
      PublishAllKeeps(limit, droppedBefore, published);
      published := published + [event];
      assert Front(published) == old(published);
      if event.plane == Control {
        control := control + [event];
        return QueuedOk;
      }
      content := content + [Ranked(event)];
      if |content| > limit {
        var worst := FindWorst();
        content := RemoveAt(content, worst);
        dropped := dropped + 1;
        return DroppedOverflow;
      }
      r := QueuedOk;
    }

    /** Dispatch everything buffered, in the order the offline form prescribes. */
    method Drain() returns (r: seq<Event>)
      requires Valid()
      modifies this
      ensures Valid() && published == [] && content == [] && control == [] && dropped == old(dropped)
      ensures r == Offline(limit, old(published))
      ensures |r| + dropped == |old(published)| + old(droppedBefore)
    {
      DrainIsOfflineSort(limit, droppedBefore, published);
      var controlEvents := control;
      var contentEvents := SortBy(content, NotAfter);
      control, content := [], [];
      published, droppedBefore := [], dropped;
      r := controlEvents + Map(contentEvents, EventOf);
    }
  }
}
