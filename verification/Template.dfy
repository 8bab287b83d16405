/** Template rendering: slot values are substituted, and no `{...}` group ever leaves. */
module Template {
  import opened Seqs

  const MAX_SLOTS: nat := 8
  const MAX_SLOT_NAME_BYTES: nat := 64
  const MAX_SLOT_BYTES: nat := 256
  const MAX_RENDER_BYTES: nat := 1024

  /** Which characters are white space and which are control characters. */
  datatype CharClass = CharClass(space: char -> bool, control: char -> bool)

  datatype ResponseTemplate = ResponseTemplate(id: string, version: string, text: string, slots: seq<string>)

  datatype Fallback = InvalidTemplate | SlotLimitExceeded | SlotValueTooLarge | RenderTooLarge

  /** Length in UTF-8 bytes. */
  function ByteLength(s: string): nat {
    if s == [] then 0
    else
      var c := Last(s) as int;
      ByteLength(Front(s)) + (if c < 0x80 then 1 else if c < 0x800 then 2 else if c < 0x1_0000 then 3 else 4)
  }

  function TrimStart(cls: CharClass, s: string): string {
    if s != [] && cls.space(s[0]) then TrimStart(cls, s[1..]) else s
  }

  function TrimEnd(cls: CharClass, s: string): string {
    if s != [] && cls.space(Last(s)) then TrimEnd(cls, Front(s)) else s
  }

  function Trim(cls: CharClass, s: string): string { TrimEnd(cls, TrimStart(cls, s)) }

  // ---- Placeholder groups --------------------------------------------------

  /** Position of the first `c`, or the length when there is none. */
  function Position(s: string, c: char): (i: nat)
    ensures i <= |s| && (i < |s| ==> s[i] == c)
    ensures forall k :: 0 <= k < i ==> s[k] != c
  {
    if s == [] || s[0] == c then 0 else 1 + Position(s[1..], c)
  }

  /** The first group, if it is closed, is passed over; otherwise its brace is kept. Gives what is
      emitted and what is left to scan. */
  function Round(text: string): (r: (string, string))
    requires Position(text, '{') < |text|
    ensures |r.1| < |text|
  {
    var start := Position(text, '{');
    var end := Position(text[start..], '}');
    if start + end < |text| then (text[..start], text[start..][end + 1..])
    else (text[..start] + "{", text[start..][1..])
  }

  function RemovePlaceholders(text: string): string
    decreases |text|
  {
    if Position(text, '{') == |text| then text
    else Round(text).0 + RemovePlaceholders(Round(text).1)
  }

  /** Some opening brace stands before a closing one. */
  ghost predicate Leaks(text: string) {
    exists i, j :: 0 <= i < j < |text| && text[i] == '{' && text[j] == '}'
  }

  /** Removal invents no closing brace. */
  lemma {:induction false} RemovalAddsNoClose(text: string)
    requires '}' !in text
    ensures '}' !in RemovePlaceholders(text)
    decreases |text|
  {
    if Position(text, '{') < |text| {
      RemovalAddsNoClose(Round(text).1);
    }
  }

  lemma LeakFromTail(a: string, b: string)
    ensures Leaks(b) ==> Leaks(a + b)
  {
    if Leaks(b) {
      var i, j :| 0 <= i < j < |b| && b[i] == '{' && b[j] == '}';
      assert (a + b)[|a| + i] == '{' && (a + b)[|a| + j] == '}';
    }
  }

  lemma CleanTail(a: string, b: string)
    requires '{' !in a && !Leaks(b)
    ensures !Leaks(a + b)
  {
    forall i, j | 0 <= i < j < |a + b| ensures !((a + b)[i] == '{' && (a + b)[j] == '}') {
      if i >= |a| {
        assert !(b[i - |a|] == '{' && b[j - |a|] == '}');
      } else {
        assert a[i] in a;
      }
    }
  }

  lemma CleanWithoutClose(a: string, b: string)
    requires '{' !in a && '}' !in b
    ensures !Leaks(a + "{" + b)
  {
    assert !Leaks("{" + b);
    CleanTail(a, "{" + b);
    assert a + "{" + b == a + ("{" + b);
  }

  lemma BeforePosition(s: string, c: char)
    ensures c !in s[..Position(s, c)]
    ensures Position(s, c) == |s| ==> c !in s
  {
  }

  /** What is left after removal never leaks. */
  lemma {:induction false} RemovalLeavesNoGroup(text: string)
    ensures !Leaks(RemovePlaceholders(text))
    decreases |text|
  {
    var start := Position(text, '{');
    if start < |text| {
      var (out, rest) := Round(text);
      RemovalLeavesNoGroup(rest);
      BeforePosition(text, '{');
      var end := Position(text[start..], '}');
      if start + end < |text| {
        CleanTail(out, RemovePlaceholders(rest));
      } else {
        BeforePosition(text[start..], '}');
        RemovalAddsNoClose(rest);
        CleanWithoutClose(text[..start], RemovePlaceholders(rest));
      }
    }
  }

  lemma CleanHasNoCloseAfterOpen(text: string, start: nat)
    requires !Leaks(text) && start < |text| && text[start] == '{'
    ensures Position(text[start..], '}') == |text| - start
    ensures !Leaks(text[start + 1..])
  {
    forall k | start <= k < |text| ensures text[k] != '}' {
      assert k > start ==> !(text[start] == '{' && text[k] == '}');
    }
    LeakFromTail(text[..start + 1], text[start + 1..]);
    assert text[..start + 1] + text[start + 1..] == text;
  }

  lemma {:induction false} RemovalKeepsCleanText(text: string)
    requires !Leaks(text)
    ensures RemovePlaceholders(text) == text
    decreases |text|
  {
    var start := Position(text, '{');
    if start < |text| {
      hide Position, Leaks;
      CleanHasNoCloseAfterOpen(text, start);
      RemovalKeepsCleanText(text[start + 1..]);
      assert Round(text) == (text[..start] + "{", text[start + 1..]);
      assert text == text[..start] + "{" + text[start + 1..];
    }
  }

  /** Removal leaves a text alone exactly when it has no group, and doing it twice changes nothing. */
  lemma RemovalFixesExactlyCleanText(text: string)
    ensures RemovePlaceholders(text) == text <==> !Leaks(text)
    ensures RemovePlaceholders(RemovePlaceholders(text)) == RemovePlaceholders(text)
  {
    RemovalLeavesNoGroup(text);
    RemovalKeepsCleanText(RemovePlaceholders(text));
    if !Leaks(text) {
      RemovalKeepsCleanText(text);
    }
  }

  /** The loop form: text already passed, then the rest. */
  method RemovePlaceholdersLoop(text: string) returns (output: string)
    ensures output == RemovePlaceholders(text)
  {
    hide RemovePlaceholders;
    output := "";
    var rest := text;
    while Position(rest, '{') < |rest|
      invariant output + RemovePlaceholders(rest) == RemovePlaceholders(text)
      decreases |rest|
    {
      ghost var round := Round(rest);
      RemovalRound(output, rest);
      var start := Position(rest, '{');
      var after := rest[start..];
      var end := Position(after, '}');
      if end < |after| {
        output := output + rest[..start];
        rest := after[end + 1..];
      } else {
        output := output + (rest[..start] + "{");
        rest := after[1..];
      }
      assert rest == round.1;
    }
    RemovalOfPlainText(rest);
    output := output + rest;
  }

  lemma RemovalRound(output: string, text: string)
    requires Position(text, '{') < |text|
    ensures output + RemovePlaceholders(text) == (output + Round(text).0) + RemovePlaceholders(Round(text).1)
  {
    Regroup(output, Round(text).0, RemovePlaceholders(Round(text).1));
  }

  lemma RemovalOfPlainText(text: string)
    requires Position(text, '{') == |text|
    ensures RemovePlaceholders(text) == text
  {
  }

  lemma Regroup(a: string, b: string, c: string)
    ensures (a + b) + c == a + (b + c)
  {
  }

  // ---- Substitution --------------------------------------------------------

  /** Every occurrence of `pattern`, left to right and not overlapping, becomes `value`. */
  function Replace(s: string, pattern: string, value: string): string
    requires pattern != []
  {
    if |s| < |pattern| then s
    else if s[..|pattern|] == pattern then value + Replace(s[|pattern|..], pattern, value)
    else [s[0]] + Replace(s[1..], pattern, value)
  }

  function Plain(cls: CharClass): char -> bool { (c: char) => !cls.control(c) }

  /** Slot values are trimmed and lose their control characters. */
  function Normalized(cls: CharClass, value: string): string { Filter(Trim(cls, value), Plain(cls)) }

  function Bind(cls: CharClass, declared: seq<string>, text: string, slots: seq<(string, string)>): string {
    if slots == [] then text
    else
      var before := Bind(cls, declared, text, Front(slots));
      var (name, value) := Last(slots);
      if name in declared then Replace(before, "{" + name + "}", Normalized(cls, value)) else before
  }

  function Declared(names: seq<string>): ((string, string)) -> bool {
    (slot: (string, string)) => slot.0 in names
  }

  /** Values under undeclared names never reach the text. */
  lemma {:induction false} UndeclaredSlotsAreInert(cls: CharClass, declared: seq<string>, text: string,
                                                   slots: seq<(string, string)>)
    ensures Bind(cls, declared, text, slots) == Bind(cls, declared, text, Filter(slots, Declared(declared)))
  {
    if slots != [] {
      UndeclaredSlotsAreInert(cls, declared, text, Front(slots));
      var kept := Filter(Front(slots), Declared(declared));
      if Last(slots).0 in declared {
        assert Front(kept + [Last(slots)]) == kept;
      } else {
        assert Filter(slots, Declared(declared)) == kept;
      }
    }
  }

  predicate Oversized(slot: (string, string)) {
    ByteLength(slot.0) > MAX_SLOT_NAME_BYTES || ByteLength(slot.1) > MAX_SLOT_BYTES
  }

  /** Why rendering would be refused before anything is substituted. */
  function Refusal(cls: CharClass, t: ResponseTemplate, slots: seq<(string, string)>): Option<Fallback> {
    if Trim(cls, t.id) == "" || Trim(cls, t.version) == "" || Trim(cls, t.text) == "" then Some(InvalidTemplate)
    else if |slots| > MAX_SLOTS then Some(SlotLimitExceeded)
    else if exists s :: s in slots && Oversized(s) then Some(SlotValueTooLarge)
    else None
  }

  lemma TrimStartIsSuffix(cls: CharClass, s: string)
    ensures exists k :: 0 <= k <= |s| && TrimStart(cls, s) == s[k..]
  {
    if s != [] && cls.space(s[0]) {
      TrimStartIsSuffix(cls, s[1..]);
      var k :| 0 <= k <= |s[1..]| && TrimStart(cls, s[1..]) == s[1..][k..];
      assert s[1..][k..] == s[k + 1..];
    } else {
      assert s[0..] == s;
    }
  }

  lemma TrimEndIsPrefix(cls: CharClass, s: string)
    ensures TrimEnd(cls, s) <= s
  {
  }

  lemma {:induction false} PrefixBytes(s: string, k: nat)
    requires k <= |s|
    ensures ByteLength(s[..k]) <= ByteLength(s)
  {
    if k < |s| {
      PrefixBytes(Front(s), k);
      assert Front(s)[..k] == s[..k];
    } else {
      assert s[..k] == s;
    }
  }

  lemma {:induction false} SuffixBytes(s: string, k: nat)
    requires k <= |s|
    ensures ByteLength(s[k..]) <= ByteLength(s)
  {
    if k < |s| {
      SuffixBytes(Front(s), k);
      assert Front(s[k..]) == Front(s)[k..];
    }
  }

  /** Trimming takes a contiguous part: it leaks only if the whole did, and is no longer in bytes. */
  lemma TrimKeepsClean(cls: CharClass, s: string)
    ensures Leaks(Trim(cls, s)) ==> Leaks(s)
    ensures ByteLength(Trim(cls, s)) <= ByteLength(s)
  {
    TrimStartIsSuffix(cls, s);
    var k :| 0 <= k <= |s| && TrimStart(cls, s) == s[k..];
    var r := Trim(cls, s);
    TrimEndIsPrefix(cls, s[k..]);
    PartKeepsClean(s, k, |r|);
    assert r == s[k..][..|r|];
  }

  lemma PartKeepsClean(s: string, k: nat, n: nat)
    requires k + n <= |s|
    ensures Leaks(s[k..][..n]) ==> Leaks(s)
    ensures ByteLength(s[k..][..n]) <= ByteLength(s)
  {
    SuffixBytes(s, k);
    PrefixBytes(s[k..], n);
    var r := s[k..][..n];
    if Leaks(r) {
      var i, j :| 0 <= i < j < |r| && r[i] == '{' && r[j] == '}';
      assert s[k + i] == '{' && s[k + j] == '}';
    }
  }

  // ---- Rendering -----------------------------------------------------------

  method Render(cls: CharClass, t: ResponseTemplate, slots: seq<(string, string)>) returns (r: Result<string, Fallback>)
    ensures var refusal := Refusal(cls, t, slots);
            var bound := Bind(cls, t.slots, t.text, slots);
            r == if refusal.Some? then Err(refusal.value)
                 else if ByteLength(bound) > MAX_RENDER_BYTES then Err(RenderTooLarge)
                 else if Leaks(bound) || Trim(cls, bound) == "" then Err(InvalidTemplate)
                 else Ok(Trim(cls, bound))
    ensures r.Ok? ==> !Leaks(r.value) && r.value != "" && ByteLength(r.value) <= MAX_RENDER_BYTES
  {
    if Trim(cls, t.id) == "" || Trim(cls, t.version) == "" || Trim(cls, t.text) == "" {
      return Err(InvalidTemplate);
    }
    if |slots| > MAX_SLOTS {
      return Err(SlotLimitExceeded);
    }
    for i := 0 to |slots|
      invariant forall k :: 0 <= k < i ==> !Oversized(slots[k])
    {
      if Oversized(slots[i]) {
        return Err(SlotValueTooLarge);
      }
    }
    var rendered := t.text;
    for i := 0 to |slots|
      invariant rendered == Bind(cls, t.slots, t.text, slots[..i])
    {
      assert Front(slots[..i + 1]) == slots[..i];
      var (name, value) := slots[i];
      if name in t.slots {
        rendered := Replace(rendered, "{" + name + "}", Normalized(cls, value));
      }
    }
    assert slots[..|slots|] == slots;
    if ByteLength(rendered) > MAX_RENDER_BYTES {
      return Err(RenderTooLarge);
    }
    RemovalFixesExactlyCleanText(rendered);
    if '{' in rendered && '}' in rendered {
      var removed := RemovePlaceholdersLoop(rendered);
      if removed != rendered {
        return Err(InvalidTemplate);
      }
    }
    TrimKeepsClean(cls, rendered);
    rendered := Trim(cls, rendered);
    r := if rendered == "" then Err(InvalidTemplate) else Ok(rendered);
  }
}
