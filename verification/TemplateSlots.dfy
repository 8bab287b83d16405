/** What a render puts where: a template read as text and slots, each declared slot filled with its value. */
module TemplateSlots {
  import opened Seqs
  import opened Template

  datatype Piece = Lit(text: string) | Slot(name: string)

  function TextOf(p: Piece): string {
    match p
    case Lit(text) => text
    case Slot(name) => "{" + name + "}"
  }

  function Text(pieces: seq<Piece>): string {
    if pieces == [] then "" else TextOf(pieces[0]) + Text(pieces[1..])
  }

  /** Text opens no brace of its own, and slot names hold none. */
  predicate ShapedPiece(p: Piece) {
    match p
    case Lit(text) => '{' !in text
    case Slot(name) => '{' !in name && '}' !in name
  }

  predicate Shaped(pieces: seq<Piece>) { forall i :: 0 <= i < |pieces| ==> ShapedPiece(pieces[i]) }

  /** One slot filled wherever it stands. */
  function FillOne(p: Piece, name: string, value: string): Piece { if p == Slot(name) then Lit(value) else p }

  function Fill(pieces: seq<Piece>, name: string, value: string): (r: seq<Piece>)
    ensures |r| == |pieces| && forall i :: 0 <= i < |r| ==> r[i] == FillOne(pieces[i], name, value)
  {
    if pieces == [] then [] else [FillOne(pieces[0], name, value)] + Fill(pieces[1..], name, value)
  }

  // ---- Replacing in a shaped text ------------------------------------------

  lemma ReplaceSkips(c: char, rest: string, pattern: string, value: string)
    requires pattern != "" && pattern[0] == '{' && c != '{'
    ensures Replace([c] + rest, pattern, value) == [c] + Replace(rest, pattern, value)
  {
    var s := [c] + rest;
    assert s[0] == c && s[1..] == rest;
    if |s| >= |pattern| {
      assert s[..|pattern|][0] == c;
    } else {
      assert Replace(rest, pattern, value) == rest;
    }
  }

  /** Text without an opening brace is passed over. */
  lemma {:induction false} ReplacePassesOver(t: string, rest: string, pattern: string, value: string)
    requires pattern != "" && pattern[0] == '{' && '{' !in t
    ensures Replace(t + rest, pattern, value) == t + Replace(rest, pattern, value)
  {
    hide Replace;
    if t == "" {
      assert t + rest == rest && t + Replace(rest, pattern, value) == Replace(rest, pattern, value);
    } else {
      ReplacePassesOver(t[1..], rest, pattern, value);
      ReplaceSkips(t[0], t[1..] + rest, pattern, value);
      assert t == [t[0]] + t[1..];
      assert t + rest == [t[0]] + (t[1..] + rest);
      assert t + Replace(rest, pattern, value) == [t[0]] + (t[1..] + Replace(rest, pattern, value));
    }
  }

  /** A slot is replaced by its own value and by no other slot's. */
  lemma ReplaceAtSlot(m: string, rest: string, name: string, value: string)
    requires '{' !in m && '}' !in m && '{' !in name && '}' !in name
    ensures Replace("{" + m + "}" + rest, "{" + name + "}", value)
            == (if m == name then value else "{" + m + "}") + Replace(rest, "{" + name + "}", value)
  {
    var s, pattern := "{" + m + "}" + rest, "{" + name + "}";
    if m == name {
      assert s[..|pattern|] == pattern && s[|pattern|..] == rest;
    } else {
      if pattern <= s {
        SameSlot(m, rest, name);
      }
      var after := m + "}";
      assert s[0] == '{' && s[1..] == after + rest;
      ReplacePassesOver(after, rest, pattern, value);
      assert [s[0]] + (after + Replace(rest, pattern, value)) == "{" + m + "}" + Replace(rest, pattern, value);
      if |s| < |pattern| {
        assert Replace(rest, pattern, value) == rest;
      }
    }
  }

  lemma PositionIs(s: string, c: char, i: nat)
    requires i < |s| && s[i] == c && c !in s[..i]
    ensures Position(s, c) == i
  {
    forall k | 0 <= k < i ensures s[k] != c {
      assert s[..i][k] == s[k];
    }
  }

  lemma CloseOf(name: string, rest: string)
    requires '}' !in name
    ensures Position("{" + name + "}" + rest, '}') == |name| + 1
  {
    var s := "{" + name + "}" + rest;
    assert s[..|name| + 1] == "{" + name;
    PositionIs(s, '}', |name| + 1);
  }

  lemma SameSlot(m: string, rest: string, name: string)
    requires '}' !in m && '}' !in name && "{" + name + "}" <= "{" + m + "}" + rest
    ensures m == name
  {
    var s, pattern := "{" + m + "}" + rest, "{" + name + "}";
    CloseOf(m, rest);
    CloseOf(name, s[|pattern|..]);
    assert s == pattern + s[|pattern|..];
    assert |m| == |name|;
    assert m == s[1..|m| + 1] && name == pattern[1..|m| + 1];
  }

  /** Replacing a slot's pattern fills exactly that slot. */
  lemma {:induction false} ReplaceFills(pieces: seq<Piece>, name: string, value: string)
    requires Shaped(pieces) && '{' !in name && '}' !in name
    ensures Replace(Text(pieces), "{" + name + "}", value) == Text(Fill(pieces, name, value))
  {
    if pieces != [] {
      var rest := Text(pieces[1..]);
      assert ShapedPiece(pieces[0]);
      ReplaceFills(pieces[1..], name, value);
      match pieces[0] {
        case Lit(text) => ReplacePassesOver(text, rest, "{" + name + "}", value);
        case Slot(m) => ReplaceAtSlot(m, rest, name, value);
      }
    }
  }

  // ---- Binding -------------------------------------------------------------

  /** The first value given to a declared name, as it is put in the text. */
  function Given(cls: CharClass, declared: seq<string>, slots: seq<(string, string)>, name: string): Option<string> {
    if slots == [] || name !in declared then None
    else if slots[0].0 == name then Some(Normalized(cls, slots[0].1))
    else Given(cls, declared, slots[1..], name)
  }

  lemma {:induction false} GivenSnoc(cls: CharClass, declared: seq<string>, slots: seq<(string, string)>, name: string)
    requires slots != []
    ensures Given(cls, declared, slots, name)
            == (var before := Given(cls, declared, Front(slots), name);
                if before.Some? then before
                else if name in declared && Last(slots).0 == name then Some(Normalized(cls, Last(slots).1))
                else None)
  {
    if |slots| > 1 {
      GivenSnoc(cls, declared, slots[1..], name);
      assert Front(slots)[1..] == Front(slots[1..]) && Front(slots)[0] == slots[0];
    }
  }

  function Filled(cls: CharClass, declared: seq<string>, slots: seq<(string, string)>, p: Piece): Piece {
    match p
    case Lit(_) => p
    case Slot(name) =>
      var given := Given(cls, declared, slots, name);
      if given.Some? then Lit(given.value) else p
  }

  function FilledAll(cls: CharClass, declared: seq<string>, slots: seq<(string, string)>,
                     pieces: seq<Piece>): (r: seq<Piece>)
    ensures |r| == |pieces| && forall i :: 0 <= i < |r| ==> r[i] == Filled(cls, declared, slots, pieces[i])
  {
    if pieces == [] then []
    else [Filled(cls, declared, slots, pieces[0])] + FilledAll(cls, declared, slots, pieces[1..])
  }

  /** Declared names hold no brace, and no declared value opens one. */
  predicate Harmless(cls: CharClass, declared: seq<string>, slots: seq<(string, string)>) {
    && (forall name :: name in declared ==> '{' !in name && '}' !in name)
    && (forall slot :: slot in slots && slot.0 in declared ==> '{' !in Normalized(cls, slot.1))
  }

  /** Binding fills each declared slot with the first value given to it, and leaves every other slot and all
      text as it was. */
  lemma {:induction false} BindFillsSlots(cls: CharClass, declared: seq<string>, pieces: seq<Piece>,
                                          slots: seq<(string, string)>)
    requires Shaped(pieces) && Harmless(cls, declared, slots)
    ensures Bind(cls, declared, Text(pieces), slots) == Text(FilledAll(cls, declared, slots, pieces))
    ensures Shaped(FilledAll(cls, declared, slots, pieces))
  {
    if slots == [] {
      assert FilledAll(cls, declared, slots, pieces) == pieces;
    } else {
      var before := Front(slots);
      var (name, value) := Last(slots);
      assert slots == before + [Last(slots)];
      BindFillsSlots(cls, declared, pieces, before);
      var once := FilledAll(cls, declared, before, pieces);
      FilledSnoc(cls, declared, slots, pieces);
      if name in declared {
        ReplaceFills(once, name, Normalized(cls, value));
        FillKeepsShape(once, name, Normalized(cls, value));
      }
    }
  }

  lemma FilledSnoc(cls: CharClass, declared: seq<string>, slots: seq<(string, string)>, pieces: seq<Piece>)
    requires slots != []
    ensures var once := FilledAll(cls, declared, Front(slots), pieces);
            FilledAll(cls, declared, slots, pieces)
            == if Last(slots).0 in declared then Fill(once, Last(slots).0, Normalized(cls, Last(slots).1)) else once
  {
    forall i | 0 <= i < |pieces| && pieces[i].Slot?
      ensures Given(cls, declared, slots, pieces[i].name)
              == (var before := Given(cls, declared, Front(slots), pieces[i].name);
                  if before.Some? then before
                  else if pieces[i].name in declared && Last(slots).0 == pieces[i].name
                  then Some(Normalized(cls, Last(slots).1)) else None)
    {
      GivenSnoc(cls, declared, slots, pieces[i].name);
    }
    hide Given, Normalized;
  }

  lemma FillKeepsShape(pieces: seq<Piece>, name: string, value: string)
    requires Shaped(pieces) && '{' !in value
    ensures Shaped(Fill(pieces, name, value))
  {
    forall i | 0 <= i < |pieces| ensures ShapedPiece(Fill(pieces, name, value)[i]) {
      assert ShapedPiece(pieces[i]);
    }
  }

  // ---- What is left --------------------------------------------------------

  /** The bound text still leaks a placeholder exactly when some slot got no value. */
  lemma LeaksExactlyWhenUnfilled(cls: CharClass, declared: seq<string>, pieces: seq<Piece>,
                                 slots: seq<(string, string)>)
    requires Shaped(pieces) && Harmless(cls, declared, slots)
    ensures Leaks(Bind(cls, declared, Text(pieces), slots))
            <==> exists i :: 0 <= i < |pieces| && pieces[i].Slot? && Given(cls, declared, slots, pieces[i].name).None?
  {
    BindFillsSlots(cls, declared, pieces, slots);
    var filled := FilledAll(cls, declared, slots, pieces);
    if i :| 0 <= i < |pieces| && pieces[i].Slot? && Given(cls, declared, slots, pieces[i].name).None? {
      SlotLeaks(filled, i);
    } else {
      assert forall i :: 0 <= i < |filled| ==> filled[i].Lit?;
      LiteralsHoldNoBrace(filled);
    }
  }

  lemma {:induction false} SlotLeaks(pieces: seq<Piece>, i: nat)
    requires i < |pieces| && pieces[i].Slot?
    ensures Leaks(Text(pieces))
  {
    var rest := Text(pieces[1..]);
    if i == 0 {
      var s := "{" + pieces[0].name + "}" + rest;
      assert s[0] == '{' && s[|pieces[0].name| + 1] == '}';
    } else {
      SlotLeaks(pieces[1..], i - 1);
      LeakFromTail(TextOf(pieces[0]), rest);
    }
  }

  lemma {:induction false} LiteralsHoldNoBrace(pieces: seq<Piece>)
    requires Shaped(pieces) && forall i :: 0 <= i < |pieces| ==> pieces[i].Lit?
    ensures '{' !in Text(pieces)
  {
    if pieces != [] {
      assert ShapedPiece(pieces[0]);
      LiteralsHoldNoBrace(pieces[1..]);
    }
  }

  // ---- The value of a slot -------------------------------------------------

  predicate AllSpace(cls: CharClass, s: string) { forall c :: c in s ==> cls.space(c) }

  lemma {:induction false} TrimStartExactly(cls: CharClass, s: string) returns (k: nat)
    ensures k <= |s| && AllSpace(cls, s[..k]) && TrimStart(cls, s) == s[k..]
    ensures k < |s| ==> !cls.space(s[k])
  {
    if s == "" || !cls.space(s[0]) {
      k := 0;
    } else {
      var m := TrimStartExactly(cls, s[1..]);
      k := m + 1;
      assert s[..k] == [s[0]] + s[1..][..m];
    }
  }

  lemma {:induction false} TrimEndExactly(cls: CharClass, s: string) returns (k: nat)
    ensures k <= |s| && AllSpace(cls, s[k..]) && TrimEnd(cls, s) == s[..k]
    ensures k > 0 ==> !cls.space(s[k - 1])
  {
    if s == "" || !cls.space(Last(s)) {
      k := |s|;
    } else {
      k := TrimEndExactly(cls, Front(s));
      assert s[k..] == Front(s)[k..] + [Last(s)] && s[..k] == Front(s)[..k];
    }
  }

  /** A slot's value is what is left of it without the white space around it and without control characters. */
  lemma ValueExactly(cls: CharClass, value: string) returns (a: string, core: string, b: string)
    ensures value == a + core + b && AllSpace(cls, a) && AllSpace(cls, b)
    ensures core != "" ==> !cls.space(core[0]) && !cls.space(Last(core))
    ensures Normalized(cls, value) == Filter(core, (c: char) => !cls.control(c))
    ensures forall c :: c in Normalized(cls, value) ==> !cls.control(c)
  {
    var k := TrimStartExactly(cls, value);
    var m := TrimEndExactly(cls, value[k..]);
    a, core, b := value[..k], value[k..][..m], value[k..][m..];
    assert value == value[..k] + value[k..] && value[k..] == core + b;
    assert m == 0 ==> core == "";
    FilterMembers(core, Plain(cls));
    FilterAgree(core, Plain(cls), (c: char) => !cls.control(c));
  }

  // ---- Refusals ------------------------------------------------------------

  lemma TrimmedAwayExactly(cls: CharClass, s: string)
    ensures Trim(cls, s) == "" <==> AllSpace(cls, s)
  {
    var k := TrimStartExactly(cls, s);
    var m := TrimEndExactly(cls, s[k..]);
    assert s == s[..k] + s[k..];
    if k < |s| {
      assert s[k] in s && s[k..][0] == s[k];
      assert s[k..][0] in s[k..] && s[k..][0..] == s[k..];
    }
  }

  /** Rendering is refused before anything is filled in, exactly: for a blank id, version or text; then for
      more than 8 slots; then for a name over 64 bytes or a value over 256. */
  lemma RefusedExactly(cls: CharClass, t: ResponseTemplate, slots: seq<(string, string)>)
    ensures Refusal(cls, t, slots)
            == if AllSpace(cls, t.id) || AllSpace(cls, t.version) || AllSpace(cls, t.text) then Some(InvalidTemplate)
               else if |slots| > 8 then Some(SlotLimitExceeded)
               else if exists i :: 0 <= i < |slots| && (ByteLength(slots[i].0) > 64 || ByteLength(slots[i].1) > 256)
               then Some(SlotValueTooLarge)
               else None
  {
    TrimmedAwayExactly(cls, t.id);
    TrimmedAwayExactly(cls, t.version);
    TrimmedAwayExactly(cls, t.text);
    hide AllSpace, Trim, ByteLength;
    assert (exists slot :: slot in slots && Oversized(slot))
           <==> exists i :: 0 <= i < |slots| && (ByteLength(slots[i].0) > 64 || ByteLength(slots[i].1) > 256) by {
      SomeOversized(slots);
    }
  }

  lemma SomeOversized(slots: seq<(string, string)>)
    ensures (exists slot :: slot in slots && Oversized(slot))
            <==> exists i :: 0 <= i < |slots| && (ByteLength(slots[i].0) > 64 || ByteLength(slots[i].1) > 256)
  {
    if slot :| slot in slots && Oversized(slot) {
      var i :| 0 <= i < |slots| && slots[i] == slot;
      assert ByteLength(slots[i].0) > 64 || ByteLength(slots[i].1) > 256;
    }
    if i :| 0 <= i < |slots| && (ByteLength(slots[i].0) > 64 || ByteLength(slots[i].1) > 256) {
      assert slots[i] in slots && Oversized(slots[i]);
    }
  }
}
