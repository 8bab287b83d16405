/** The raw record reader: however the bytes arrive, the records are those of the whole input split
    at line feeds. */
module RawIngress {
  import opened Seqs
  import opened Utf8
  import opened Words

  const USIZE_MAX: nat := U64_MAX
  const LF: byte := 10
  const CR: byte := 13

  // ---- The specification ---------------------------------------------------

  datatype Verdict = Record(data: Text) | Oversized

  /** Position of the first line feed, or the length when there is none. */
  function LineEnd(s: Text): (i: nat)
    ensures i <= |s| && (i < |s| ==> s[i] == LF)
    ensures LF !in s[..i]
  {
    if s == [] || s[0] == LF then 0
    else
      assert s[..1 + LineEnd(s[1..])] == [s[0]] + s[1..][..LineEnd(s[1..])];
      1 + LineEnd(s[1..])
  }

  /** The lines of the input; the last one counts without a line feed, unless the source fails
      before its end is known. */
  function Lines(input: Text, fails: bool): seq<Text>
    decreases |input|
  {
    var p := LineEnd(input);
    if input == [] then []
    else if p == |input| then (if fails then [] else [input])
    else [input[..p]] + Lines(input[p + 1..], fails)
  }

  function StripCr(line: Text): Text { if line != [] && Last(line) == CR then Front(line) else line }

  /** A record is its line without one trailing carriage return, refused when longer than the bound. */
  function Judge(line: Text, maxBytes: nat): Verdict {
    if |StripCr(line)| > maxBytes then Oversized else Record(StripCr(line))
  }

  function Judging(maxBytes: nat): Text -> Verdict { (line: Text) => Judge(line, maxBytes) }

  function Joined(lines: seq<Text>): Text {
    if lines == [] then [] else lines[0] + [LF] + Joined(lines[1..])
  }

  /** Splitting loses nothing: joining the lines gives back the input, up to a missing final feed. */
  lemma {:induction false} LinesJoinBack(input: Text)
    ensures Joined(Lines(input, false)) == if input == [] || Last(input) == LF then input else input + [LF]
    ensures forall line :: line in Lines(input, false) ==> LF !in line
    decreases |input|
  {
    var p := LineEnd(input);
    if p < |input| {
      LinesJoinBack(input[p + 1..]);
      SplitAround(input, p);
      assert Lines(input, false) == [input[..p]] + Lines(input[p + 1..], false);
      JoinedCons(input[..p], Lines(input[p + 1..], false));
    } else if input != [] {
      assert input[..p] == input;
      assert Joined([input]) == input + [LF] + Joined([]);
    }
  }

  lemma JoinedCons(line: Text, lines: seq<Text>)
    ensures Joined([line] + lines) == line + [LF] + Joined(lines)
  {
    assert ([line] + lines)[1..] == lines;
  }

  // ---- What the reader computes for one line -------------------------------

  function FinishRecord(retained: Text, total: nat, maxBytes: nat, definitelyOversized: bool): Verdict {
    if definitelyOversized then Oversized
    else
      var hadCr := retained != [] && Last(retained) == CR;
      var kept := if hadCr then Front(retained) else retained;
      var logical := SatSub(total, if hadCr then 1 else 0);
      if logical > maxBytes || |kept| > maxBytes then Oversized else Record(kept)
  }

  /** Byte count with the machine word's saturation. */
  function Counted(line: Text): nat { Min(|line|, USIZE_MAX) }

  function LineVerdict(line: Text, maxBytes: nat): Verdict {
    FinishRecord(Take(line, maxBytes + 1), Counted(line), maxBytes, Counted(line) > maxBytes + 1)
  }

  predicate ValidBound(maxBytes: nat) { 0 < maxBytes < USIZE_MAX }

  /** The bounded reader judges every line as the specification does, except at the largest
      admissible bound, where the saturated count cannot see past a carriage return. */
  lemma LineVerdictIsExact(line: Text, maxBytes: nat)
    requires ValidBound(maxBytes)
    ensures LineVerdict(line, maxBytes) == Judge(line, maxBytes)
            <==> !(maxBytes + 1 == USIZE_MAX && |line| > USIZE_MAX && line[USIZE_MAX - 1] == CR)
  {
    if |line| <= maxBytes + 1 {
      assert Take(line, maxBytes + 1) == line;
    } else {
      assert Last(Take(line, maxBytes + 1)) == line[maxBytes];
    }
  }

  /** The bound leaves room for one boundary byte, or no line overruns the counter. */
  predicate Countable(input: Text, maxBytes: nat) { maxBytes + 1 < USIZE_MAX || |input| <= USIZE_MAX }

  // ---- The chunked source --------------------------------------------------

  function Concat(chunks: seq<Text>): Text {
    if chunks == [] then [] else chunks[0] + Concat(chunks[1..])
  }

  /** A buffered source: whatever nonempty pieces the input arrives in, then its end or a failure. */
  class ChunkReader {
    var chunks: seq<Text>
    const fails: bool

    ghost predicate Valid()
      reads this
    {
      forall i :: 0 <= i < |chunks| ==> chunks[i] != []
    }

    ghost function Remaining(): Text
      reads this
    {
      Concat(chunks)
    }

    constructor (chunks: seq<Text>, fails: bool)
      requires forall i :: 0 <= i < |chunks| ==> chunks[i] != []
      ensures Valid() && Remaining() == Concat(chunks) && this.fails == fails
    {
      this.chunks, this.fails := chunks, fails;
    }

    /** The buffered bytes: empty only at the end; nothing when the source failed. */
    method FillBuf() returns (r: Option<Text>)
      requires Valid()
      ensures r.None? <==> chunks == [] && fails
      ensures r.Some? && r.value == [] ==> chunks == []
      ensures r.Some? ==> r.value <= Remaining() && (r.value == [] <==> Remaining() == [])
      ensures r.Some? && r.value != [] ==> chunks != [] && r.value == chunks[0]
      ensures r.None? ==> Remaining() == []
    {
      r := if chunks != [] then Some(chunks[0]) else if fails then None else Some([]);
    }

    method Consume(n: nat)
      requires Valid() && chunks != [] && n <= |chunks[0]|
      modifies this
      ensures Valid() && Remaining() == old(Remaining())[n..]
    {
      var rest := chunks[0][n..];
      assert Remaining()[n..] == rest + Concat(chunks[1..]);
      chunks := if rest == [] then chunks[1..] else [rest] + chunks[1..];
    }
  }

  datatype ReadResult = Eof | Got(verdict: Verdict) | Failed

  /** What one read gives and leaves, as a function of the bytes still to come. */
  function ReadOf(input: Text, fails: bool, maxBytes: nat): (ReadResult, Text) {
    var p := LineEnd(input);
    if p < |input| then (Got(LineVerdict(input[..p], maxBytes)), input[p + 1..])
    else if fails then (Failed, [])
    else if input == [] then (Eof, [])
    else (Got(LineVerdict(input, maxBytes)), [])
  }

  // ---- The bounded read ----------------------------------------------------

  /** Reader state inside one record, for the bytes of the record seen so far. */
  ghost predicate Holding(seen: Text, retained: Text, total: nat, oversized: bool, maxBytes: nat) {
    && total == Counted(seen)
    && (oversized <==> total > maxBytes + 1)
    && (!oversized ==> retained == Take(seen, maxBytes + 1))
    && |retained| <= maxBytes + 1
  }

  lemma HoldingNothing(maxBytes: nat)
    ensures Holding([], [], 0, false, maxBytes)
  {
  }

  lemma HeldIsBounded(seen: Text, retained: Text, total: nat, oversized: bool, maxBytes: nat)
    requires Holding(seen, retained, total, oversized, maxBytes)
    ensures |retained| <= maxBytes + 1
  {
  }

  /** Take in one more piece of the record. */
  method Retain(retained: Text, total: nat, oversized: bool, piece: Text, maxBytes: nat, ghost seen: Text)
    returns (retained': Text, total': nat, oversized': bool)
    requires ValidBound(maxBytes) && Holding(seen, retained, total, oversized, maxBytes)
    ensures Holding(seen + piece, retained', total', oversized', maxBytes)
  {
    retained', oversized' := retained, oversized;
    total' := Min(total + |piece|, USIZE_MAX);
    if !oversized {
      var room := SatSub(maxBytes + 1, |retained|);
      retained' := retained + piece[..Min(|piece|, room)];
      oversized' := total' > maxBytes + 1;
    }
  }

  lemma VerdictOfHeld(seen: Text, retained: Text, total: nat, oversized: bool, maxBytes: nat)
    requires Holding(seen, retained, total, oversized, maxBytes)
    ensures FinishRecord(retained, total, maxBytes, oversized) == LineVerdict(seen, maxBytes)
  {
  }

  lemma LineEndUnique(s: Text, i: nat)
    ensures i < |s| && s[i] == LF && LF !in s[..i] ==> LineEnd(s) == i
    ensures LF !in s ==> LineEnd(s) == |s|
  {
    var p := LineEnd(s);
    if p < i < |s| {
      assert s[..i][p] == s[p];
    } else if i < p {
      assert s[..p][i] == s[i];
    }
  }

  /** The source ended with no line feed in the record. */
  lemma ReadAtEnd(seen: Text, fails: bool, maxBytes: nat)
    requires LF !in seen
    ensures ReadOf(seen, fails, maxBytes)
            == if fails then (Failed, []) else if seen == [] then (Eof, []) else (Got(LineVerdict(seen, maxBytes)), [])
  {
    LineEndUnique(seen, 0);
  }

  lemma ReadOfLine(line: Text, rest: Text, fails: bool, maxBytes: nat)
    requires LF !in line
    ensures ReadOf(line + [LF] + rest, fails, maxBytes) == (Got(LineVerdict(line, maxBytes)), rest)
  {
    hide LineEnd, LineVerdict;
    var input := line + [LF] + rest;
    assert input[..|line|] == line && input[|line| + 1..] == rest;
    LineEndUnique(input, |line|);
  }

  /** The record's line feed is found. */
  lemma ReadAtFeed(seen: Text, ahead: Text, fails: bool, maxBytes: nat)
    requires LF !in seen && LineEnd(ahead) < |ahead|
    ensures var p := LineEnd(ahead);
            ReadOf(seen + ahead, fails, maxBytes) == (Got(LineVerdict(seen + ahead[..p], maxBytes)), ahead[p + 1..])
  {
    hide LineEnd, LineVerdict, ReadOf;
    var p := LineEnd(ahead);
    SplitAround(ahead, p);
    assert seen + ahead == (seen + ahead[..p]) + [LF] + ahead[p + 1..];
    ReadOfLine(seen + ahead[..p], ahead[p + 1..], fails, maxBytes);
  }

  lemma FeedInPrefix(buffer: Text, ahead: Text)
    requires buffer <= ahead && LineEnd(buffer) < |buffer|
    ensures LineEnd(ahead) == LineEnd(buffer)
  {
    assert ahead[..LineEnd(buffer)] == buffer[..LineEnd(buffer)];
    LineEndUnique(ahead, LineEnd(buffer));
  }

  /** The buffer shows the line's end. */
  lemma FeedFound(seen: Text, ahead: Text, buffer: Text, fails: bool, maxBytes: nat)
    requires LF !in seen && buffer <= ahead && LineEnd(buffer) < |buffer|
    ensures var p := LineEnd(buffer);
            ReadOf(seen + ahead, fails, maxBytes) == (Got(LineVerdict(seen + buffer[..p], maxBytes)), ahead[p + 1..])
  {
    hide LineEnd, ReadOf, LineVerdict;
    FeedInPrefix(buffer, ahead);
    ReadAtFeed(seen, ahead, fails, maxBytes);
    SamePrefix(buffer, ahead, LineEnd(buffer));
  }

  lemma SamePrefix(a: Text, b: Text, n: nat)
    requires a <= b && n <= |a|
    ensures a[..n] == b[..n]
  {
  }

  /** The buffer is all of one line. */
  lemma NoFeed(seen: Text, ahead: Text, buffer: Text)
    requires LF !in seen && buffer <= ahead && LineEnd(buffer) == |buffer|
    ensures buffer[..LineEnd(buffer)] == buffer && LF !in seen + buffer
    ensures seen + ahead == (seen + buffer) + ahead[|buffer|..]
  {
    hide LineEnd;
    assert buffer[..|buffer|] == buffer && LF !in buffer;
    assert ahead == buffer + ahead[|buffer|..];
  }

  /** Read one record. At most one byte past the bound is ever retained. */
  method ReadBoundedRecord(reader: ChunkReader, maxBytes: nat) returns (r: ReadResult, highWater: nat)
    requires reader.Valid() && ValidBound(maxBytes)
    modifies reader
    ensures reader.Valid()
    ensures (r, reader.Remaining()) == ReadOf(old(reader.Remaining()), reader.fails, maxBytes)
    ensures highWater <= maxBytes + 1
  {
    hide LineEnd, LineVerdict, ReadOf, FinishRecord, Concat, Holding, ChunkReader.Valid, ChunkReader.Remaining;
    ghost var input := reader.Remaining();
    ghost var seen: Text := [];
    var retained: Text, total, oversized := [], 0, false;
    HoldingNothing(maxBytes);
    var sawInput := false;
    highWater := 0;
    while true
      invariant reader.Valid() && seen + reader.Remaining() == input && LF !in seen
      invariant sawInput <==> seen != []
      invariant Holding(seen, retained, total, oversized, maxBytes) && highWater <= maxBytes + 1
      decreases |reader.Remaining()|
    {
      ghost var ahead := reader.Remaining();
      var buffer := reader.FillBuf();
      if buffer.None? || buffer.value == [] {
        assert seen == input;
        ReadAtEnd(seen, reader.fails, maxBytes);
        VerdictOfHeld(seen, retained, total, oversized, maxBytes);
        r := if buffer.None? then Failed
             else if !sawInput then Eof
             else Got(FinishRecord(retained, total, maxBytes, oversized));
        return;
      }
      sawInput := true;
      var newline := LineEnd(buffer.value);
      var piece := buffer.value[..newline];
      retained, total, oversized := Retain(retained, total, oversized, piece, maxBytes, seen);
      HeldIsBounded(seen + piece, retained, total, oversized, maxBytes);
      highWater := Max(highWater, |retained|);
      if newline < |buffer.value| {
        FeedFound(seen, ahead, buffer.value, reader.fails, maxBytes);
        VerdictOfHeld(seen + piece, retained, total, oversized, maxBytes);
        reader.Consume(newline + 1);
        return Got(FinishRecord(retained, total, maxBytes, oversized)), highWater;
      }
      NoFeed(seen, ahead, buffer.value);
      reader.Consume(newline);
      seen := seen + piece;
    }
  }

  // ---- The pump ------------------------------------------------------------

  /** What the bounded hand-off answers to one send. */
  datatype SendOutcome = Accepted | QueueFull | Disconnected

  datatype Exit = AtEof | ReceiverDisconnected | ReadError

  /** Records handed on and records counted as dropped, and why the pump stopped. */
  datatype Tally = Tally(enqueued: seq<Text>, queueFull: nat, oversize: nat, exit: Exit)

  /** The pump over the specification's records: `channel(k)` answers the k-th send. */
  function Pumped(records: seq<Verdict>, fails: bool, channel: nat -> SendOutcome, sent: nat): Tally {
    if records == [] then Tally([], 0, 0, if fails then ReadError else AtEof)
    else
      match records[0]
      case Oversized =>
        var t := Pumped(records[1..], fails, channel, sent);
        t.(oversize := t.oversize + 1)
      case Record(data) =>
        if channel(sent) == Disconnected then Tally([], 0, 0, ReceiverDisconnected)
        else
          var t := Pumped(records[1..], fails, channel, sent + 1);
          if channel(sent) == Accepted then t.(enqueued := [data] + t.enqueued)
          else t.(queueFull := t.queueFull + 1)
  }

  function Records(input: Text, fails: bool, maxBytes: nat): seq<Verdict> {
    Map(Lines(input, fails), Judging(maxBytes))
  }

  /** Every record is accounted for: up to the end of the input, or up to the record whose send
      found no receiver. What is handed on is a selection of the accepted records, in order. */
  lemma {:induction false} PumpAccountsForEveryRecord(records: seq<Verdict>, fails: bool, channel: nat -> SendOutcome,
                                                      sent: nat)
    ensures var t := Pumped(records, fails, channel, sent);
            var counted := |t.enqueued| + t.queueFull + t.oversize;
            && (t.exit != ReceiverDisconnected ==> counted == |records|)
            && (t.exit == ReceiverDisconnected ==> counted < |records| && records[counted].Record?)
            && (forall d :: d in t.enqueued ==> Record(d) in records)
  {
    if records != [] {
      match records[0]
      case Oversized => PumpAccountsForEveryRecord(records[1..], fails, channel, sent);
      case Record(data) => PumpAccountsForEveryRecord(records[1..], fails, channel, sent + 1);
    }
  }

  /** The records sent before record `k`: those not rejected for their size. */
  function SentBefore(records: seq<Verdict>, k: nat): nat
    requires k <= |records|
  {
    if k == 0 then 0 else SentBefore(records, k - 1) + (if records[k - 1].Record? then 1 else 0)
  }

  /** What the channel answered when record `k` was sent, the first being its answer number `sent`. */
  function AnswerTo(records: seq<Verdict>, channel: nat -> SendOutcome, sent: nat, k: nat): SendOutcome
    requires k <= |records|
  {
    channel(sent + SentBefore(records, k))
  }

  /** Record `k` in the channel's hands: taken, not taken for want of room, or not sent at all. */
  function TookAt(records: seq<Verdict>, channel: nat -> SendOutcome, sent: nat, k: nat): seq<Text>
    requires k < |records|
  {
    if records[k].Record? && AnswerTo(records, channel, sent, k) == Accepted then [records[k].data] else []
  }

  function MissedAt(records: seq<Verdict>, channel: nat -> SendOutcome, sent: nat, k: nat): nat
    requires k < |records|
  {
    if records[k].Record? && AnswerTo(records, channel, sent, k) == QueueFull then 1 else 0
  }

  /** The records of the first `n` that the channel took, in order. */
  function Taken(records: seq<Verdict>, channel: nat -> SendOutcome, sent: nat, n: nat): seq<Text>
    requires n <= |records|
  {
    if n == 0 then [] else Taken(records, channel, sent, n - 1) + TookAt(records, channel, sent, n - 1)
  }

  /** How many of the first `n` records the channel had no room for. */
  function NotTaken(records: seq<Verdict>, channel: nat -> SendOutcome, sent: nat, n: nat): nat
    requires n <= |records|
  {
    if n == 0 then 0 else NotTaken(records, channel, sent, n - 1) + MissedAt(records, channel, sent, n - 1)
  }

  /** The pump reached record `n`: no earlier record met a closed channel. */
  ghost predicate Reaches(records: seq<Verdict>, channel: nat -> SendOutcome, sent: nat, n: nat) {
    n <= |records|
    && forall k :: 0 <= k < n && records[k].Record? ==> AnswerTo(records, channel, sent, k) != Disconnected
  }

  lemma {:induction false} ShiftedSent(records: seq<Verdict>, k: nat)
    requires records != [] && k < |records|
    ensures SentBefore(records, k + 1) == (if records[0].Record? then 1 else 0) + SentBefore(records[1..], k)
    decreases k
  {
    if k > 0 {
      ShiftedSent(records, k - 1);
      assert records[1..][k - 1] == records[k];
    }
  }

  /** The answer number of the second record on. */
  function Next(records: seq<Verdict>, sent: nat): nat
    requires records != []
  {
    sent + (if records[0].Record? then 1 else 0)
  }

  lemma ShiftedAt(records: seq<Verdict>, channel: nat -> SendOutcome, sent: nat, k: nat)
    requires records != [] && k + 1 < |records|
    ensures TookAt(records, channel, sent, k + 1) == TookAt(records[1..], channel, Next(records, sent), k)
    ensures MissedAt(records, channel, sent, k + 1) == MissedAt(records[1..], channel, Next(records, sent), k)
  {
    ShiftedSent(records, k);
  }

  lemma {:induction false} ShiftedTaken(records: seq<Verdict>, channel: nat -> SendOutcome, sent: nat, n: nat)
    requires records != [] && n < |records|
    ensures Taken(records, channel, sent, n + 1)
            == TookAt(records, channel, sent, 0) + Taken(records[1..], channel, Next(records, sent), n)
    decreases n
  {
    hide TookAt;
    if n > 0 {
      ShiftedTaken(records, channel, sent, n - 1);
      ShiftedAt(records, channel, sent, n - 1);
    } else {
      var none := Taken(records, channel, sent, n);
      assert none == [] && Taken(records, channel, sent, n + 1) == none + TookAt(records, channel, sent, n);
    }
  }

  lemma {:induction false} ShiftedNotTaken(records: seq<Verdict>, channel: nat -> SendOutcome, sent: nat, n: nat)
    requires records != [] && n < |records|
    ensures NotTaken(records, channel, sent, n + 1)
            == MissedAt(records, channel, sent, 0) + NotTaken(records[1..], channel, Next(records, sent), n)
    decreases n
  {
    hide MissedAt;
    if n > 0 {
      ShiftedNotTaken(records, channel, sent, n - 1);
      ShiftedAt(records, channel, sent, n - 1);
    } else {
      assert NotTaken(records, channel, sent, n + 1)
          == NotTaken(records, channel, sent, n) + MissedAt(records, channel, sent, n);
    }
  }

  /** What the pump does, exactly: up to the record it reaches, each oversized record is counted as such,
      each other one is enqueued or counted as not taken by the channel's own answer; it stops at the end,
      or at the first record whose channel is closed. */
  lemma {:induction false} PumpsExactly(records: seq<Verdict>, fails: bool, channel: nat -> SendOutcome, sent: nat)
    returns (n: nat)
    ensures Reaches(records, channel, sent, n)
    ensures var t := Pumped(records, fails, channel, sent);
            && t.enqueued == Taken(records, channel, sent, n)
            && t.queueFull == NotTaken(records, channel, sent, n)
            && t.oversize == n - SentBefore(records, n)
            && (n == |records| ==> t.exit == if fails then ReadError else AtEof)
            && (n < |records| ==> t.exit == ReceiverDisconnected && records[n].Record?
                                  && AnswerTo(records, channel, sent, n) == Disconnected)
  {
    if records == [] {
      n := 0;
    } else if records[0].Record? && channel(sent) == Disconnected {
      n := 0;
      assert SentBefore(records, 0) == 0;
    } else {
      var later := Next(records, sent);
      var m := PumpsExactly(records[1..], fails, channel, later);
      n := m + 1;
      assert SentBefore(records, 0) == 0;
      ShiftedTaken(records, channel, sent, m);
      ShiftedNotTaken(records, channel, sent, m);
      ShiftedSent(records, m);
      ShiftedReach(records, channel, sent, later, m);
    }
  }

  lemma ShiftedReach(records: seq<Verdict>, channel: nat -> SendOutcome, sent: nat, later: nat, m: nat)
    requires records != [] && (records[0].Record? ==> channel(sent) != Disconnected)
    requires later == Next(records, sent) && Reaches(records[1..], channel, later, m)
    ensures Reaches(records, channel, sent, m + 1)
    ensures m + 1 < |records| ==> AnswerTo(records, channel, sent, m + 1) == AnswerTo(records[1..], channel, later, m)
  {
    assert SentBefore(records, 0) == 0;
    forall k | 0 <= k <= m && k + 1 <= |records| - 1
      ensures AnswerTo(records, channel, sent, k + 1) == AnswerTo(records[1..], channel, later, k)
    {
      ShiftedSent(records, k);
    }
    forall k | 0 <= k < m + 1 && records[k].Record? ensures AnswerTo(records, channel, sent, k) != Disconnected {
      if k > 0 {
        assert records[1..][k - 1] == records[k];
      }
    }
  }

  lemma {:induction false} RecordsAfterRead(input: Text, fails: bool, maxBytes: nat)
    requires ValidBound(maxBytes) && Countable(input, maxBytes)
    ensures var (r, rest) := ReadOf(input, fails, maxBytes);
            && Countable(rest, maxBytes)
            && (r.Got? ==> && |rest| < |input|
                           && Records(input, fails, maxBytes) == [r.verdict] + Records(rest, fails, maxBytes))
            && (r.Failed? ==> fails && Records(input, fails, maxBytes) == [])
            && (r.Eof? ==> !fails && Records(input, fails, maxBytes) == [])
  {
    var p := LineEnd(input);
    if p < |input| {
      LineVerdictIsExact(input[..p], maxBytes);
      MapCons(input[..p], Lines(input[p + 1..], fails), Judging(maxBytes));
    } else if input != [] && !fails {
      LineVerdictIsExact(input, maxBytes);
      MapCons(input, [], Judging(maxBytes));
    }
  }

  lemma MapCons<T, U>(x: T, xs: seq<T>, f: T -> U)
    ensures Map([x] + xs, f) == [f(x)] + Map(xs, f)
  {
  }

  class Pump {
    var enqueued: seq<Text>
    var queueFull: nat
    var oversize: nat
    var readErrors: nat
    var maxRetained: nat

    constructor ()
      ensures enqueued == [] && queueFull == 0 && oversize == 0 && readErrors == 0 && maxRetained == 0
    {
      enqueued, queueFull, oversize, readErrors, maxRetained := [], 0, 0, 0, 0;
    }

    /** The counters so far combined with what the pump does to the rest. */
    ghost function Total(rest: Tally): Tally
      reads this
    {
      Tally(enqueued + rest.enqueued, queueFull + rest.queueFull, oversize + rest.oversize, rest.exit)
    }

    /** Hand one record on, or count why it was not. */
    method HandOn(verdict: Verdict, channel: nat -> SendOutcome, sent: nat, ghost rest: seq<Verdict>, ghost fails: bool)
      returns (sent': nat, stop: bool)
      modifies this`enqueued, this`queueFull, this`oversize
      ensures stop ==>
                Total(Tally([], 0, 0, ReceiverDisconnected))
                == old(Total(Pumped([verdict] + rest, fails, channel, sent)))
      ensures !stop ==>
                Total(Pumped(rest, fails, channel, sent'))
                == old(Total(Pumped([verdict] + rest, fails, channel, sent)))
    {
      assert ([verdict] + rest)[1..] == rest;
      sent', stop := sent, false;
      match verdict {
        case Oversized =>
          oversize := oversize + 1;
        case Record(data) =>
          var outcome := channel(sent);
          if outcome == Disconnected {
            stop := true;
            return;
          }
          sent' := sent + 1;
          if outcome == Accepted {
            ghost var later := Pumped(rest, fails, channel, sent').enqueued;
            assert enqueued + ([data] + later) == (enqueued + [data]) + later;
            enqueued := enqueued + [data];
          } else {
            queueFull := queueFull + 1;
          }
      }
    }

    /** Drain the source. Whatever pieces it arrives in, the counters are those of the
        specification's records of the whole input. */
    method Run(reader: ChunkReader, maxBytes: nat, channel: nat -> SendOutcome) returns (exit: Exit)
      requires reader.Valid() && ValidBound(maxBytes) && Countable(reader.Remaining(), maxBytes)
      modifies this, reader
      ensures Total(Tally([], 0, 0, exit))
              == old(Total(Pumped(Records(reader.Remaining(), reader.fails, maxBytes), reader.fails, channel, 0)))
      ensures readErrors == old(readErrors) + (if exit == ReadError then 1 else 0)
      ensures maxRetained <= Max(old(maxRetained), maxBytes + 1)
    {
      hide Records, ReadOf, Concat;
      ghost var goal := Total(Pumped(Records(reader.Remaining(), reader.fails, maxBytes), reader.fails, channel, 0));
      var sent: nat := 0;
      while true
        invariant reader.Valid() && Countable(reader.Remaining(), maxBytes)
        invariant Total(Pumped(Records(reader.Remaining(), reader.fails, maxBytes), reader.fails, channel, sent))
                  == goal
        invariant readErrors == old(readErrors) && maxRetained <= Max(old(maxRetained), maxBytes + 1)
        decreases |reader.Remaining()|
      {
        RecordsAfterRead(reader.Remaining(), reader.fails, maxBytes);
        var r, highWater := ReadBoundedRecord(reader, maxBytes);
        maxRetained := Max(maxRetained, highWater);
        match r {
          case Failed =>
            readErrors := readErrors + 1;
            return ReadError;
          case Eof =>
            return AtEof;
          case Got(verdict) =>
            ghost var rest := Records(reader.Remaining(), reader.fails, maxBytes);
            var stop: bool;
            sent, stop := HandOn(verdict, channel, sent, rest, reader.fails);
            if stop {
              return ReceiverDisconnected;
            }
        }
      }
    }
  }
}
