/** UTF-8 text as bytes, and the two `truncate_utf8` routines. Well-formedness follows the byte
    table in section 4 of RFC 3629. */
module Utf8 {

  type byte = b: int | 0 <= b < 256

  type Text = seq<byte>

  predicate Continuation(b: byte) { 0x80 <= b <= 0xBF }

  /** Length of the well-formed character `s` starts with; 0 when it starts with none. */
  function LeadLength(s: Text): (n: nat)
    ensures n <= |s| && n <= 4
  {
    if s == [] then 0
    else if s[0] <= 0x7F then 1
    else if 0xC2 <= s[0] <= 0xDF then
      if |s| >= 2 && Continuation(s[1]) then 2 else 0
    else if 0xE0 <= s[0] <= 0xEF then
      if |s| >= 3 && Second(s[0], s[1]) && Continuation(s[2]) then 3 else 0
    else if 0xF0 <= s[0] <= 0xF4 then
      if |s| >= 4 && Second(s[0], s[1]) && Continuation(s[2]) && Continuation(s[3]) then 4 else 0
    else 0
  }

  /** Second bytes that exclude overlong forms, surrogates and values above U+10FFFF. */
  predicate Second(lead: byte, b: byte) {
    && Continuation(b)
    && (lead == 0xE0 ==> 0xA0 <= b)
    && (lead == 0xED ==> b <= 0x9F)
    && (lead == 0xF0 ==> 0x90 <= b)
    && (lead == 0xF4 ==> b <= 0x8F)
  }

  predicate WellFormed(s: Text) {
    s == [] || (LeadLength(s) > 0 && WellFormed(s[LeadLength(s)..]))
  }

  /** The byte test behind `is_char_boundary`: it looks at one byte and decodes nothing. */
  predicate IsBoundary(s: Text, i: nat) {
    i == 0 || i == |s| || (i < |s| && !Continuation(s[i]))
  }

  lemma LeadOfPrefix(s: Text, i: nat)
    requires i <= |s| && LeadLength(s) > 0
    ensures LeadLength(s[..i]) == if i < LeadLength(s) then 0 else LeadLength(s)
    ensures forall k :: 0 < k < LeadLength(s) ==> Continuation(s[k])
    ensures !Continuation(s[0])
  {
  }

  /** The one-byte boundary test is exact on well-formed text: it accepts a position exactly
      when the bytes before it are well-formed on their own. */
  lemma {:induction false} BoundaryIffWellFormedPrefix(s: Text, i: nat)
    requires WellFormed(s) && i <= |s|
    ensures WellFormed(s[..i]) <==> IsBoundary(s, i)
    decreases |s|
  {
    if 0 < i {
      var n := LeadLength(s);
      LeadOfPrefix(s, i);
      if n <= i {
        BoundaryIffWellFormedPrefix(s[n..], i - n);
        assert s[..i][n..] == s[n..][..i - n];
        if i == n < |s| {
          LeadOfPrefix(s[n..], 0);
        }
      }
    }
  }

  /** The largest boundary at or below `end`. */
  function FloorBoundary(s: Text, end: nat): (r: nat)
    ensures r <= end && IsBoundary(s, r)
    ensures forall k :: r < k <= end ==> !IsBoundary(s, k)
  {
    if IsBoundary(s, end) then end else FloorBoundary(s, end - 1)
  }

  function Truncated(s: Text, maxBytes: nat): (r: Text)
    ensures r <= s && |r| <= maxBytes
  {
    if |s| <= maxBytes then s else s[..FloorBoundary(s, maxBytes)]
  }

  /** The longest well-formed prefix of `s` within `maxBytes` bytes. */
  ghost predicate LongestPrefix(r: Text, s: Text, maxBytes: nat) {
    && r <= s && |r| <= maxBytes && WellFormed(r)
    && forall k :: |r| < k <= maxBytes && k <= |s| ==> !WellFormed(s[..k])
  }

  /** Truncation keeps well-formed text well-formed and cuts as little as the cap allows. */
  lemma TruncatedIsLongestPrefix(s: Text, maxBytes: nat)
    requires WellFormed(s)
    ensures LongestPrefix(Truncated(s, maxBytes), s, maxBytes)
  {
    forall k | 0 <= k <= |s| ensures WellFormed(s[..k]) <==> IsBoundary(s, k) {
      BoundaryIffWellFormedPrefix(s, k);
    }
    if |s| <= maxBytes {
      assert s[..|s|] == s;
    }
  }

  /** The store's copy: it clamps the start and guards the loop with `end > 0`. */
  method TruncateOwned(value: Text, maxBytes: nat) returns (r: Text)
    ensures r == Truncated(value, maxBytes)
    ensures WellFormed(value) ==> LongestPrefix(r, value, maxBytes)
  {
    if WellFormed(value) { TruncatedIsLongestPrefix(value, maxBytes); }
    if |value| <= maxBytes {
      return value;
    }
    var end := if maxBytes < |value| then maxBytes else |value|;
    while end > 0 && !IsBoundary(value, end)
      invariant 0 <= end <= maxBytes
      invariant FloorBoundary(value, end) == FloorBoundary(value, maxBytes)
    {
      end := end - 1;
    }
    r := value[..end];
  }

  /** The router's copy: no `end > 0` guard; the `nat` position shows it cannot underflow. */
  method TruncateSlice(value: Text, maxBytes: nat) returns (r: Text)
    ensures r == Truncated(value, maxBytes)
    ensures WellFormed(value) ==> LongestPrefix(r, value, maxBytes)
  {
    if WellFormed(value) { TruncatedIsLongestPrefix(value, maxBytes); }
    if |value| <= maxBytes {
      return value;
    }
    var end: nat := maxBytes;
    while !IsBoundary(value, end)
      invariant end <= maxBytes
      invariant FloorBoundary(value, end) == FloorBoundary(value, maxBytes)
      decreases end
    {
      end := end - 1;
    }
    r := value[..end];
  }
}
