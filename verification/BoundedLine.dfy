/** Headless JSON lines: every string and key capped in UTF-8 bytes, every line capped in all. */
module BoundedLine {
  import opened Options

  /** A Unicode code point; one of the surrogate range stands for a lone surrogate of a JavaScript string. */
  type CodePoint = n: nat | n < 0x11_0000
  type Str = seq<CodePoint>

  const REPLACEMENT: CodePoint := 0xFFFD
  const MAX_DEPTH := 64

  predicate LoneSurrogate(c: CodePoint) {
    0xD800 <= c < 0xE000
  }

  /** UTF-8 lengths, section 3 of RFC 3629; a lone surrogate is encoded as the replacement character. */
  function Bytes(c: CodePoint): (n: nat)
    ensures 1 <= n <= 4
  {
    if c < 0x80 then 1 else if c < 0x800 then 2 else if c < 0x1_0000 then 3 else 4
  }

  function ByteLength(s: Str): (n: nat)
    ensures n >= |s|
  {
    if s == [] then 0 else ByteLength(s[..|s| - 1]) + Bytes(s[|s| - 1])
  }

  function Encoded(c: CodePoint): CodePoint {
    if LoneSurrogate(c) then REPLACEMENT else c
  }

  /** What decoding a whole encoded text gives. */
  function WellFormed(s: Str): (r: Str)
    ensures |r| == |s| && forall i :: 0 <= i < |s| ==> r[i] == Encoded(s[i])
  {
    seq(|s|, i requires 0 <= i < |s| => Encoded(s[i]))
  }

  /** How many whole code points the first bytes of an encoded text hold. */
  function Whole(s: Str, maxBytes: nat): (k: nat)
    ensures k <= |s| && ByteLength(s[..k]) <= maxBytes
    ensures k < |s| ==> ByteLength(s[..k + 1]) > maxBytes
  {
    if ByteLength(s) <= maxBytes then
      assert s[..|s|] == s;
      |s|
    else
      var init := s[..|s| - 1];
      var k := Whole(init, maxBytes);
      assert init[..k] == s[..k] && (k < |init| ==> init[..k + 1] == s[..k + 1]) && s[..|s|] == s;
      k
  }

  /** Decode the first bytes: whole code points, and one replacement character for a split one. */
  function DecodeCut(s: Str, maxBytes: nat): Str {
    var k := Whole(s, maxBytes);
    WellFormed(s[..k]) + if k < |s| && ByteLength(s[..k]) < maxBytes then [REPLACEMENT] else []
  }

  function TruncateUtf8(s: Str, maxBytes: nat): Str {
    var decoded := DecodeCut(s, maxBytes);
    if decoded != [] && decoded[|decoded| - 1] == REPLACEMENT then decoded[..|decoded| - 1] else decoded
  }

  lemma {:induction false} SameBytes(s: Str)
    ensures ByteLength(WellFormed(s)) == ByteLength(s)
  {
    if s != [] {
      SameBytes(s[..|s| - 1]);
      assert WellFormed(s)[..|s| - 1] == WellFormed(s[..|s| - 1]);
    }
  }

  lemma {:induction false} PrefixBytes(s: Str, k: nat)
    requires k <= |s|
    ensures ByteLength(s[..k]) <= ByteLength(s)
  {
    if k < |s| {
      assert s[..|s| - 1][..k] == s[..k];
      PrefixBytes(s[..|s| - 1], k);
    } else {
      assert s[..k] == s;
    }
  }

  /** The whole code points within a cap are as many as fit. */
  lemma WholeIsMost(s: Str, maxBytes: nat, n: nat)
    requires n <= |s| && ByteLength(s[..n]) <= maxBytes
    ensures n <= Whole(s, maxBytes)
  {
    hide ByteLength, Whole;
    var k := Whole(s, maxBytes);
    if n > k {
      assert s[..n][..k + 1] == s[..k + 1];
      PrefixBytes(s[..n], k + 1);
    }
  }

  /** What truncation keeps of the whole code points: all, or all but a last one that looks like a split. */
  lemma TruncatedKeeps(s: Str, maxBytes: nat)
    ensures var kept, k := TruncateUtf8(s, maxBytes), Whole(s, maxBytes);
            && k - 1 <= |kept| <= k && kept == WellFormed(s)[..|kept|]
            && (|kept| == k - 1 <==>
              k > 0 && Encoded(s[k - 1]) == REPLACEMENT && !(k < |s| && ByteLength(s[..k]) < maxBytes))
  {
    hide ByteLength, Whole;
    var k := Whole(s, maxBytes);
    assert WellFormed(s[..k]) == WellFormed(s)[..k];
  }

  /**
   A truncated text is a prefix of the well-formed text within the cap, cut between code points. It is the longest one,
   except that a replacement character which ends exactly there goes too.
   */
  lemma TruncatedIsPrefix(s: Str, maxBytes: nat)
    ensures var kept, k := TruncateUtf8(s, maxBytes), Whole(s, maxBytes);
            && kept <= WellFormed(s) && ByteLength(kept) <= maxBytes && k - 1 <= |kept| <= k
            && (|kept| == k - 1 <==>
              k > 0 && Encoded(s[k - 1]) == REPLACEMENT && !(k < |s| && ByteLength(s[..k]) < maxBytes))
  {
    hide ByteLength, Whole, TruncateUtf8, WellFormed;
    var kept, k := TruncateUtf8(s, maxBytes), Whole(s, maxBytes);
    TruncatedKeeps(s, maxBytes);
    assert s[..k][..|kept|] == s[..|kept|];
    PrefixBytes(s[..k], |kept|);
    SameBytes(s[..|kept|]);
    WellFormedPrefix(s, |kept|);
  }

  lemma WellFormedPrefix(s: Str, n: nat)
    requires n <= |s|
    ensures WellFormed(s[..n]) == WellFormed(s)[..n]
  {
  }

  // --- values -------------------------------------------------------------------------------------------

  datatype Json =
    | Atom(text: Str) // null, a boolean or a number, as it is spelled
    | String(text: Str)
    | Array(items: seq<Json>)
    | Object(members: seq<Member>)

  datatype Member = Member(key: Str, value: Json)

  const DEPTH_MARKER: Str // spelled below as code points
    := [0x5B, 0x74, 0x72, 0x75, 0x6E, 0x63, 0x61, 0x74, 0x65, 0x64, 0x3A, 0x20, 0x64, 0x65, 0x70, 0x74, 0x68, 0x5D]

  /** Assign one property of an object. */
  function Put(members: seq<Member>, key: Str, value: Json): seq<Member> {
    if members == [] then [Member(key, value)]
    else if members[0].key == key then [Member(key, value)] + members[1..]
    else [members[0]] + Put(members[1..], key, value)
  }

  function BoundText(s: Str, maxBytes: nat): Str {
    if ByteLength(s) <= maxBytes then s else TruncateUtf8(s, maxBytes)
  }

  predicate TooLong(s: Str, maxBytes: nat) {
    ByteLength(s) > maxBytes
  }

  /** A value with every string and key capped and every container below the depth limit cut. */
  function Bound(v: Json, maxBytes: nat, depth: nat): Json
    decreases v, 1
  {
    match v
    case Atom(_) => v
    case String(text) => String(BoundText(text, maxBytes))
    case Array(items) =>
      if depth >= MAX_DEPTH then String(DEPTH_MARKER)
      else Array(BoundItems(v, items, |items|, maxBytes, depth + 1))
    case Object(members) =>
      if depth >= MAX_DEPTH then String(DEPTH_MARKER)
      else Object(BoundMembers(v, members, |members|, maxBytes, depth + 1))
  }

  function BoundItems(v: Json, items: seq<Json>, n: nat, maxBytes: nat, depth: nat): (r: seq<Json>)
    requires n <= |items| && forall item <- items :: item < v
    ensures |r| == n
    decreases v, 0, n
  {
    if n == 0 then []
    else
      assert items[n - 1] in items;
      BoundItems(v, items, n - 1, maxBytes, depth) + [Bound(items[n - 1], maxBytes, depth)]
  }

  function BoundMembers(v: Json, members: seq<Member>, n: nat, maxBytes: nat, depth: nat): seq<Member>
    requires n <= |members| && forall m <- members :: m.value < v
    decreases v, 0, n
  {
    if n == 0 then []
    else
      assert members[n - 1] in members;
      Put(BoundMembers(v, members, n - 1, maxBytes, depth),
          BoundText(members[n - 1].key, maxBytes), Bound(members[n - 1].value, maxBytes, depth))
  }

  /** Whether bounding a value cuts anything. */
  predicate Cuts(v: Json, maxBytes: nat, depth: nat)
    decreases v, 1
  {
    match v
    case Atom(_) => false
    case String(text) => TooLong(text, maxBytes)
    case Array(items) => depth >= MAX_DEPTH || ItemsCut(v, items, |items|, maxBytes, depth + 1)
    case Object(members) => depth >= MAX_DEPTH || MembersCut(v, members, |members|, maxBytes, depth + 1)
  }

  predicate ItemsCut(v: Json, items: seq<Json>, n: nat, maxBytes: nat, depth: nat)
    requires n <= |items| && forall item <- items :: item < v
    decreases v, 0, n
  {
    n > 0 &&
    (assert items[n - 1] in items;
     ItemsCut(v, items, n - 1, maxBytes, depth) || Cuts(items[n - 1], maxBytes, depth))
  }

  predicate MembersCut(v: Json, members: seq<Member>, n: nat, maxBytes: nat, depth: nat)
    requires n <= |members| && forall m <- members :: m.value < v
    decreases v, 0, n
  {
    n > 0 &&
    (assert members[n - 1] in members;
     MembersCut(v, members, n - 1, maxBytes, depth) || TooLong(members[n - 1].key, maxBytes)
     || Cuts(members[n - 1].value, maxBytes, depth))
  }

  /** The truncation flag one payload's bounding shares. */
  class BoundState {
    var truncated: bool

    constructor ()
      ensures !truncated
    {
      truncated := false;
    }

    method BoundKey(key: Str, maxBytes: nat) returns (bounded: Str)
      modifies this
      ensures bounded == BoundText(key, maxBytes) && truncated == (old(truncated) || TooLong(key, maxBytes))
    {
      if ByteLength(key) <= maxBytes {
        return key;
      }
      truncated := true;
      bounded := TruncateUtf8(key, maxBytes);
    }

    method BoundValue(v: Json, maxBytes: nat, depth: nat) returns (bounded: Json)
      modifies this
      ensures bounded == Bound(v, maxBytes, depth) && truncated == (old(truncated) || Cuts(v, maxBytes, depth))
      decreases v, 1
    {
      hide ByteLength;
      match v
      case Atom(_) =>
        bounded := v;
      case String(text) =>
        if ByteLength(text) <= maxBytes {
          return v;
        }
        truncated := true;
        bounded := String(TruncateUtf8(text, maxBytes));
      case Array(items) =>
        if depth >= MAX_DEPTH {
          truncated := true;
          return String(DEPTH_MARKER);
        }
        var r := BoundArray(v, items, maxBytes, depth + 1);
        bounded := Array(r);
      case Object(members) =>
        if depth >= MAX_DEPTH {
          truncated := true;
          return String(DEPTH_MARKER);
        }
        var r := BoundObject(v, members, maxBytes, depth + 1);
        bounded := Object(r);
    }

    method BoundArray(ghost v: Json, items: seq<Json>, maxBytes: nat, depth: nat) returns (r: seq<Json>)
      requires forall item <- items :: item < v
      modifies this
      ensures r == BoundItems(v, items, |items|, maxBytes, depth)
      ensures truncated == (old(truncated) || ItemsCut(v, items, |items|, maxBytes, depth))
      decreases v, 0
    {
      hide Bound, Cuts;
      r := [];
      for k := 0 to |items|
        invariant r == BoundItems(v, items, k, maxBytes, depth)
        invariant truncated == (old(truncated) || ItemsCut(v, items, k, maxBytes, depth))
      {
        assert items[k] in items;
        var item := BoundValue(items[k], maxBytes, depth);
        r := r + [item];
      }
    }

    method BoundObject(ghost v: Json, members: seq<Member>, maxBytes: nat, depth: nat) returns (r: seq<Member>)
      requires forall m <- members :: m.value < v
      modifies this
      ensures r == BoundMembers(v, members, |members|, maxBytes, depth)
      ensures truncated == (old(truncated) || MembersCut(v, members, |members|, maxBytes, depth))
      decreases v, 0
    {
      hide Bound, Cuts, Put;
      r := [];
      for k := 0 to |members|
        invariant r == BoundMembers(v, members, k, maxBytes, depth)
        invariant truncated == (old(truncated) || MembersCut(v, members, k, maxBytes, depth))
      {
        assert members[k] in members;
        var key := BoundKey(members[k].key, maxBytes);
        var value := BoundValue(members[k].value, maxBytes, depth);
        r := Put(r, key, value);
      }
    }
  }

  // --- what bounding keeps ------------------------------------------------------------------------------

  predicate DistinctKeys(members: seq<Member>) {
    forall i, j :: 0 <= i < j < |members| ==> members[i].key != members[j].key
  }

  /** Every object has each of its keys once. */
  predicate Proper(v: Json) {
    match v
    case Array(items) => forall i :: 0 <= i < |items| ==> Proper(items[i])
    case Object(members) => DistinctKeys(members) && forall i :: 0 <= i < |members| ==> Proper(members[i].value)
    case _ => true
  }

  lemma {:induction false} PutNew(members: seq<Member>, key: Str, value: Json)
    requires forall m <- members :: m.key != key
    ensures Put(members, key, value) == members + [Member(key, value)]
  {
    if members != [] {
      assert members[0] in members;
      PutNew(members[1..], key, value);
    }
  }

  /** When nothing is cut, the value is unmodified. */
  lemma {:induction false} UncutSame(v: Json, maxBytes: nat, depth: nat)
    requires Proper(v) && !Cuts(v, maxBytes, depth)
    ensures Bound(v, maxBytes, depth) == v
    decreases v, 1
  {
    match v
    case Atom(_) =>
    case String(_) =>
    case Array(items) =>
      UncutItems(v, items, |items|, maxBytes, depth + 1);
      assert items[..|items|] == items;
    case Object(members) =>
      UncutMembers(v, members, |members|, maxBytes, depth + 1);
      assert members[..|members|] == members;
  }

  lemma {:induction false} UncutItems(v: Json, items: seq<Json>, n: nat, maxBytes: nat, depth: nat)
    requires n <= |items| && (forall item <- items :: item < v) && !ItemsCut(v, items, n, maxBytes, depth)
    requires forall i :: 0 <= i < |items| ==> Proper(items[i])
    ensures BoundItems(v, items, n, maxBytes, depth) == items[..n]
    decreases v, 0, n
  {
    if n > 0 {
      assert items[n - 1] in items;
      UncutItems(v, items, n - 1, maxBytes, depth);
      UncutSame(items[n - 1], maxBytes, depth);
    }
  }

  lemma UncutStep(v: Json, members: seq<Member>, n: nat, maxBytes: nat, depth: nat)
    requires 0 < n <= |members| && (forall m <- members :: m.value < v) && !MembersCut(v, members, n, maxBytes, depth)
    ensures !MembersCut(v, members, n - 1, maxBytes, depth) && !Cuts(members[n - 1].value, maxBytes, depth)
    ensures BoundText(members[n - 1].key, maxBytes) == members[n - 1].key
  {
  }

  lemma {:induction false} UncutMembers(v: Json, members: seq<Member>, n: nat, maxBytes: nat, depth: nat)
    requires n <= |members| && (forall m <- members :: m.value < v) && !MembersCut(v, members, n, maxBytes, depth)
    requires DistinctKeys(members) && forall i :: 0 <= i < |members| ==> Proper(members[i].value)
    ensures BoundMembers(v, members, n, maxBytes, depth) == members[..n]
    decreases v, 0, n
  {
    hide BoundMembers, Bound, Cuts, Put, TooLong, Proper;
    if n == 0 {
      NoMembers(v, members, maxBytes, depth);
    } else {
      assert members[n - 1] in members;
      UncutStep(v, members, n, maxBytes, depth);
      UncutMembers(v, members, n - 1, maxBytes, depth);
      UncutSame(members[n - 1].value, maxBytes, depth);
      MembersStep(v, members, n, maxBytes, depth);
      PutNew(members[..n - 1], members[n - 1].key, members[n - 1].value);
      assert members[..n] == members[..n - 1] + [members[n - 1]];
    }
  }

  /** Strings and keys within the cap, but for the depth marker, and containers nested no deeper than allowed. */
  predicate Capped(v: Json, maxBytes: nat, levels: nat)
    decreases v
  {
    match v
    case Atom(_) => true
    case String(text) => text == DEPTH_MARKER || ByteLength(text) <= maxBytes
    case Array(items) => levels > 0 && forall i :: 0 <= i < |items| ==> Capped(items[i], maxBytes, levels - 1)
    case Object(members) =>
      levels > 0 && forall i :: 0 <= i < |members| ==>
        ByteLength(members[i].key) <= maxBytes && Capped(members[i].value, maxBytes, levels - 1)
  }

  predicate MemberCapped(m: Member, maxBytes: nat, levels: nat) {
    ByteLength(m.key) <= maxBytes && Capped(m.value, maxBytes, levels)
  }

  lemma {:induction false} PutCapped(members: seq<Member>, m: Member, maxBytes: nat, levels: nat)
    requires (forall x <- members :: MemberCapped(x, maxBytes, levels)) && MemberCapped(m, maxBytes, levels)
    ensures forall x <- Put(members, m.key, m.value) :: MemberCapped(x, maxBytes, levels)
  {
    if members != [] && members[0].key != m.key {
      assert members[0] in members;
      PutCapped(members[1..], m, maxBytes, levels);
    }
  }

  /** A bounded value is capped, whatever the original was. */
  lemma {:induction false} BoundIsCapped(v: Json, maxBytes: nat, depth: nat)
    requires depth <= MAX_DEPTH
    ensures Capped(Bound(v, maxBytes, depth), maxBytes, MAX_DEPTH - depth)
    decreases v, 1
  {
    hide ByteLength, TruncateUtf8;
    match v
    case Atom(_) =>
    case String(text) => TruncatedIsPrefix(text, maxBytes);
    case Array(items) =>
      if depth < MAX_DEPTH {
        ItemsCapped(v, items, |items|, maxBytes, depth + 1);
      }
    case Object(members) =>
      if depth < MAX_DEPTH {
        MembersCapped(v, members, |members|, maxBytes, depth + 1);
        var bounded := BoundMembers(v, members, |members|, maxBytes, depth + 1);
        forall i | 0 <= i < |bounded|
          ensures MemberCapped(bounded[i], maxBytes, MAX_DEPTH - depth - 1)
        {
          assert bounded[i] in bounded;
        }
      }
  }

  lemma {:induction false} ItemsCapped(v: Json, items: seq<Json>, n: nat, maxBytes: nat, depth: nat)
    requires n <= |items| && (forall item <- items :: item < v) && depth <= MAX_DEPTH
    ensures forall i :: 0 <= i < n ==> Capped(BoundItems(v, items, n, maxBytes, depth)[i], maxBytes, MAX_DEPTH - depth)
    decreases v, 0, n
  {
    if n > 0 {
      assert items[n - 1] in items;
      ItemsCapped(v, items, n - 1, maxBytes, depth);
      BoundIsCapped(items[n - 1], maxBytes, depth);
    }
  }

  lemma NoMembers(v: Json, members: seq<Member>, maxBytes: nat, depth: nat)
    requires forall m <- members :: m.value < v
    ensures BoundMembers(v, members, 0, maxBytes, depth) == []
  {
  }

  lemma MembersStep(v: Json, members: seq<Member>, n: nat, maxBytes: nat, depth: nat)
    requires 0 < n <= |members| && forall m <- members :: m.value < v
    ensures BoundMembers(v, members, n, maxBytes, depth)
            == Put(BoundMembers(v, members, n - 1, maxBytes, depth),
                   BoundText(members[n - 1].key, maxBytes), Bound(members[n - 1].value, maxBytes, depth))
  {
    hide Put, Bound, BoundText;
  }

  lemma {:induction false} OneCapped(m: Member, maxBytes: nat, depth: nat)
    requires depth <= MAX_DEPTH
    ensures MemberCapped(Member(BoundText(m.key, maxBytes), Bound(m.value, maxBytes, depth)), maxBytes,
            MAX_DEPTH - depth)
    decreases m.value, 2
  {
    hide Capped, Bound;
    BoundIsCapped(m.value, maxBytes, depth);
    TruncatedIsPrefix(m.key, maxBytes);
  }

  lemma {:induction false} MembersCapped(v: Json, members: seq<Member>, n: nat, maxBytes: nat, depth: nat)
    requires n <= |members| && (forall m <- members :: m.value < v) && depth <= MAX_DEPTH
    ensures forall m <- BoundMembers(v, members, n, maxBytes, depth) :: MemberCapped(m, maxBytes, MAX_DEPTH - depth)
    decreases v, 0, n
  {
    hide Capped, Bound, BoundText, ByteLength, Put, MemberCapped, BoundMembers;
    if n == 0 {
      NoMembers(v, members, maxBytes, depth);
    } else {
      assert members[n - 1] in members;
      MembersStep(v, members, n, maxBytes, depth);
      MembersCapped(v, members, n - 1, maxBytes, depth);
      OneCapped(members[n - 1], maxBytes, depth);
      var m := Member(BoundText(members[n - 1].key, maxBytes), Bound(members[n - 1].value, maxBytes, depth));
      PutCapped(BoundMembers(v, members, n - 1, maxBytes, depth), m, maxBytes, MAX_DEPTH - depth);
    }
  }

  // --- serialization ------------------------------------------------------------------------------------

  const QUOTE: CodePoint := 0x22
  const COMMA: CodePoint := 0x2C
  const COLON: CodePoint := 0x3A
  const BACKSLASH: CodePoint := 0x5C

  function HexDigit(d: nat): CodePoint
    requires d < 16
  {
    if d < 10 then 0x30 + d else 0x61 + d - 10
  }

  /** A code point inside a JSON string, section 7 of RFC 8259; control characters and lone surrogates are escaped. */
  function Escape(c: CodePoint): Str {
    if c == QUOTE || c == BACKSLASH then [BACKSLASH, c]
    else if c == 0x08 then [BACKSLASH, 0x62]
    else if c == 0x09 then [BACKSLASH, 0x74]
    else if c == 0x0A then [BACKSLASH, 0x6E]
    else if c == 0x0C then [BACKSLASH, 0x66]
    else if c == 0x0D then [BACKSLASH, 0x72]
    else if c < 0x20 || LoneSurrogate(c) then
      [BACKSLASH, 0x75, HexDigit(c / 0x1000), HexDigit(c / 0x100 % 16), HexDigit(c / 16 % 16), HexDigit(c % 16)]
    else [c]
  }

  function Escaped(s: Str): Str {
    if s == [] then [] else Escaped(s[..|s| - 1]) + Escape(s[|s| - 1])
  }

  function Quoted(s: Str): Str {
    [QUOTE] + Escaped(s) + [QUOTE]
  }

  function Serialize(v: Json): Str
    decreases v, 1
  {
    match v
    case Atom(text) => text
    case String(text) => Quoted(text)
    case Array(items) => [0x5B] + SerializeItems(v, items, |items|) + [0x5D]
    case Object(members) => [0x7B] + SerializeMembers(v, members, |members|) + [0x7D]
  }

  function SerializeItems(v: Json, items: seq<Json>, n: nat): Str
    requires n <= |items| && forall item <- items :: item < v
    decreases v, 0, n
  {
    if n == 0 then []
    else
      assert items[n - 1] in items;
      SerializeItems(v, items, n - 1) + (if n > 1 then [COMMA] else []) + Serialize(items[n - 1])
  }

  function SerializeMembers(v: Json, members: seq<Member>, n: nat): Str
    requires n <= |members| && forall m <- members :: m.value < v
    decreases v, 0, n
  {
    if n == 0 then []
    else
      assert members[n - 1] in members;
      SerializeMembers(v, members, n - 1) + (if n > 1 then [COMMA] else [])
      + (Quoted(members[n - 1].key) + [COLON] + Serialize(members[n - 1].value))
  }

  lemma {:induction false} BytesSplit(a: Str, b: Str)
    ensures ByteLength(a + b) == ByteLength(a) + ByteLength(b)
    decreases |b|
  {
    if b == [] {
      assert a + b == a;
    } else {
      assert (a + b)[..|a + b| - 1] == a + b[..|b| - 1];
      BytesSplit(a, b[..|b| - 1]);
    }
  }

  /** The bytes of one member of an object. */
  function Cost(m: Member): nat {
    ByteLength(Quoted(m.key)) + 1 + ByteLength(Serialize(m.value))
  }

  function Total(members: seq<Member>): nat {
    if members == [] then 0 else Total(members[..|members| - 1]) + Cost(members[|members| - 1])
  }

  lemma {:induction false} MembersBytes(v: Json, members: seq<Member>, n: nat)
    requires n <= |members| && forall m <- members :: m.value < v
    ensures ByteLength(SerializeMembers(v, members, n)) == Total(members[..n]) + if n == 0 then 0 else n - 1
    decreases n
  {
    hide Quoted, Serialize, Cost;
    if n > 0 {
      MembersBytes(v, members, n - 1);
      assert members[n - 1] in members && members[..n][..n - 1] == members[..n - 1];
      var before, comma := SerializeMembers(v, members, n - 1), if n > 1 then [COMMA] else [];
      BytesSplit(before + comma, Quoted(members[n - 1].key) + [COLON] + Serialize(members[n - 1].value));
      BytesSplit(before, comma);
      MemberBytes(members[n - 1]);
      OneByte(COMMA);
    }
  }

  lemma MemberBytes(m: Member)
    ensures ByteLength(Quoted(m.key) + [COLON] + Serialize(m.value)) == Cost(m)
  {
    hide Quoted, Serialize;
    BytesSplit(Quoted(m.key) + [COLON], Serialize(m.value));
    BytesSplit(Quoted(m.key), [COLON]);
    OneByte(COLON);
  }

  lemma OneByte(c: CodePoint)
    requires c < 0x80
    ensures ByteLength([c]) == 1
  {
    assert ([c])[..0] == [];
  }

  lemma ObjectBytes(members: seq<Member>)
    ensures ByteLength(Serialize(Object(members))) == 2 + Total(members) + if members == [] then 0 else |members| - 1
  {
    var inside := SerializeMembers(Object(members), members, |members|);
    MembersBytes(Object(members), members, |members|);
    assert members[..|members|] == members;
    BytesSplit([0x7B] + inside, [0x7D]);
    BytesSplit([0x7B], inside);
    OneByte(0x7B);
    OneByte(0x7D);
  }

  // --- one line -----------------------------------------------------------------------------------------

  const TYPE: Str := [0x74, 0x79, 0x70, 0x65]
  const TRUNCATED: Str := [0x74, 0x72, 0x75, 0x6E, 0x63, 0x61, 0x74, 0x65, 0x64]
  const TRUE := Atom([0x74, 0x72, 0x75, 0x65])

  function Lookup(members: seq<Member>, key: Str): (r: Option<Json>)
    ensures r.Some? ==> Member(key, r.value) in members
  {
    if members == [] then None
    else if members[0].key == key then Some(members[0].value)
    else Lookup(members[1..], key)
  }

  predicate Scalar(v: Json) {
    v.Atom? || v.String?
  }

  function Scalars(members: seq<Member>): seq<Member> {
    if members == [] then []
    else if Scalar(members[0].value) then [members[0]] + Scalars(members[1..])
    else Scalars(members[1..])
  }

  function Flagged(members: seq<Member>): seq<Member> {
    Put(members, TRUNCATED, TRUE)
  }

  function LastResort(members: seq<Member>): seq<Member> {
    match Lookup(members, TYPE)
    case Some(value) => [Member(TYPE, value), Member(TRUNCATED, TRUE)]
    case None => [Member(TRUNCATED, TRUE)]
  }

  predicate Fits(members: seq<Member>, maxEventBytes: int) {
    ByteLength(Serialize(Object(members))) + 1 <= maxEventBytes
  }

  /** An event under the caps on strings, keys and depth. */
  function BoundEvent(event: seq<Member>, maxStringBytes: nat): seq<Member> {
    var bounded := Bound(Object(event), maxStringBytes, 0).members;
    if Cuts(Object(event), maxStringBytes, 0) then Flagged(bounded) else bounded
  }

  /** What is finally serialized. */
  function LineOf(event: seq<Member>, maxStringBytes: nat, maxEventBytes: int): seq<Member> {
    var bounded := BoundEvent(event, maxStringBytes);
    if Fits(bounded, maxEventBytes) then bounded
    else if Fits(Flagged(Scalars(bounded)), maxEventBytes) then Flagged(Scalars(bounded))
    else LastResort(bounded)
  }

  method BoundJsonEvent(event: seq<Member>, maxStringBytes: nat) returns (bounded: seq<Member>)
    ensures bounded == BoundEvent(event, maxStringBytes)
  {
    var state := new BoundState();
    var value := state.BoundValue(Object(event), maxStringBytes, 0);
    bounded := value.members;
    if state.truncated {
      bounded := Put(bounded, TRUNCATED, TRUE);
    }
  }

  method BoundJsonLine(event: seq<Member>, maxStringBytes: nat, maxEventBytes: int) returns (line: Str)
    ensures line == Serialize(Object(LineOf(event, maxStringBytes, maxEventBytes)))
  {
    var limit := maxEventBytes - 1;
    var bounded := BoundJsonEvent(event, maxStringBytes);
    line := Serialize(Object(bounded));
    if ByteLength(line) <= limit {
      return;
    }
    var scalars: seq<Member> := [];
    assert bounded[0..] == bounded;
    for k := 0 to |bounded|
      invariant scalars + Scalars(bounded[k..]) == Scalars(bounded)
    {
      assert bounded[k..][1..] == bounded[k + 1..];
      if Scalar(bounded[k].value) {
        scalars := scalars + [bounded[k]];
      }
    }
    assert bounded[|bounded|..] == [] && scalars + [] == scalars;
    scalars := Put(scalars, TRUNCATED, TRUE);
    line := Serialize(Object(scalars));
    if ByteLength(line) <= limit {
      return;
    }
    line := Serialize(Object(LastResort(bounded)));
  }

  // --- lines stay within the cap ------------------------------------------------------------------------

  lemma {:induction false} TotalSplit(a: seq<Member>, b: seq<Member>)
    ensures Total(a + b) == Total(a) + Total(b)
    decreases |b|
  {
    if b == [] {
      assert a + b == a;
    } else {
      assert (a + b)[..|a + b| - 1] == a + b[..|b| - 1];
      TotalSplit(a, b[..|b| - 1]);
    }
  }

  lemma TotalOne(m: Member)
    ensures Total([m]) == Cost(m)
  {
    assert ([m])[..0] == [];
  }

  /** Two different members cost no more than the object they are in. */
  lemma TotalCovers(members: seq<Member>, i: nat, j: nat)
    requires i < j < |members|
    ensures Total(members) >= Cost(members[i]) + Cost(members[j])
  {
    hide Total, Cost;
    var a, b, c := members[..i], members[i + 1..j], members[j + 1..];
    assert members == a + [members[i]] + b + [members[j]] + c;
    TotalSplit(a + [members[i]] + b + [members[j]], c);
    TotalSplit(a + [members[i]] + b, [members[j]]);
    TotalSplit(a + [members[i]], b);
    TotalSplit(a, [members[i]]);
    TotalOne(members[i]);
    TotalOne(members[j]);
  }

  lemma TotalCoversOne(members: seq<Member>, i: nat)
    requires i < |members|
    ensures Total(members) >= Cost(members[i])
  {
    hide Total, Cost;
    assert members == members[..i] + [members[i]] + members[i + 1..];
    TotalSplit(members[..i] + [members[i]], members[i + 1..]);
    TotalSplit(members[..i], [members[i]]);
    TotalOne(members[i]);
  }

  lemma {:induction false} FlaggedHolds(members: seq<Member>)
    ensures Member(TRUNCATED, TRUE) in Flagged(members)
    ensures forall m <- members :: m.key != TRUNCATED ==> m in Flagged(members)
  {
    if members != [] && members[0].key != TRUNCATED {
      FlaggedHolds(members[1..]);
      assert members == [members[0]] + members[1..];
    }
  }

  lemma {:induction false} ScalarsHold(members: seq<Member>)
    ensures forall m <- members :: Scalar(m.value) ==> m in Scalars(members)
  {
    if members != [] {
      ScalarsHold(members[1..]);
      assert members == [members[0]] + members[1..];
    }
  }

  /** The last resort is never longer than the scalars it is taken from. */
  lemma LastResortShorter(members: seq<Member>)
    requires Lookup(members, TYPE).Some? ==> Scalar(Lookup(members, TYPE).value)
    ensures ByteLength(Serialize(Object(LastResort(members))))
            <= ByteLength(Serialize(Object(Flagged(Scalars(members)))))
  {
    hide Cost, ByteLength, Serialize;
    var short, last := Flagged(Scalars(members)), LastResort(members);
    ObjectBytes(short);
    ObjectBytes(last);
    FlaggedHolds(Scalars(members));
    var flag := Member(TRUNCATED, TRUE);
    var j :| 0 <= j < |short| && short[j] == flag;
    TotalOne(flag);
    match Lookup(members, TYPE)
    case None => TotalCoversOne(short, j);
    case Some(value) =>
      var first := Member(TYPE, value);
      ScalarsHold(members);
      assert TYPE[1] != TRUNCATED[1];
      assert first in short;
      var i :| 0 <= i < |short| && short[i] == first;
      assert i != j;
      TotalCovers(short, if i < j then i else j, if i < j then j else i);
      assert last == [first] + [flag];
      TotalSplit([first], [flag]);
      TotalOne(first);
  }

  /** A line stays within its cap exactly if the bounded event does, or if `type` alone with the flag does. */
  lemma LineFits(event: seq<Member>, maxStringBytes: nat, maxEventBytes: int)
    requires var bounded := BoundEvent(event, maxStringBytes);
             Lookup(bounded, TYPE).Some? ==> Scalar(Lookup(bounded, TYPE).value)
    ensures var bounded := BoundEvent(event, maxStringBytes);
            Fits(LineOf(event, maxStringBytes, maxEventBytes), maxEventBytes) <==>
            Fits(bounded, maxEventBytes) || Fits(LastResort(bounded), maxEventBytes)
  {
    LastResortShorter(BoundEvent(event, maxStringBytes));
  }

  const MAX_STRING_BYTES := 8 * 1024
  const MAX_EVENT_BYTES := 32 * 1024

  /** Under the default caps, a `type` of control characters that is within its own cap breaks that of the line. */
  lemma LineTooLong() returns (event: seq<Member>)
    ensures Proper(Object(event)) && !Cuts(Object(event), MAX_STRING_BYTES, 0)
    ensures !Fits(LineOf(event, MAX_STRING_BYTES, MAX_EVENT_BYTES), MAX_EVENT_BYTES)
  {
    hide ByteLength, Escaped, Bound, Put;
    var text := Zeros(MAX_STRING_BYTES);
    var first := Member(TYPE, String(text));
    event := [first];
    AsciiBytes(text);
    AsciiBytes(TYPE);
    ZerosEscaped(MAX_STRING_BYTES);
    assert !MembersCut(Object(event), event, |event|, MAX_STRING_BYTES, 1);
    UncutSame(Object(event), MAX_STRING_BYTES, 0);
    assert Lookup(event, TYPE) == Some(String(text));
    TotalCoversOne(LastResort(event), 0);
    ObjectBytes(LastResort(event));
    TotalCoversOne(event, 0);
    ObjectBytes(event);
    assert Cost(first) > MAX_EVENT_BYTES;
    LineFits(event, MAX_STRING_BYTES, MAX_EVENT_BYTES);
  }

  function Zeros(n: nat): (s: Str)
    ensures |s| == n && forall i :: 0 <= i < n ==> s[i] == 0
  {
    if n == 0 then [] else Zeros(n - 1) + [0]
  }

  lemma ZeroEscaped()
    ensures |Escape(0)| == 6
  {
  }

  lemma {:induction false} ZerosEscaped(n: nat)
    ensures |Escaped(Zeros(n))| == 6 * n
  {
    if n > 0 {
      ZeroEscaped();
      hide Escape;
      ZerosEscaped(n - 1);
      assert Zeros(n)[..n - 1] == Zeros(n - 1);
    }
  }

  /** A line without the flag is the unmodified event. */
  lemma UnflaggedUnmodified(event: seq<Member>, maxStringBytes: nat, maxEventBytes: int)
    requires Proper(Object(event))
    requires forall m <- LineOf(event, maxStringBytes, maxEventBytes) :: m.key != TRUNCATED
    ensures LineOf(event, maxStringBytes, maxEventBytes) == event
  {
    var bounded := BoundEvent(event, maxStringBytes);
    FlaggedHolds(Scalars(bounded));
    FlaggedHolds(Bound(Object(event), maxStringBytes, 0).members);
    assert Member(TRUNCATED, TRUE) in LastResort(bounded);
    assert !Cuts(Object(event), maxStringBytes, 0);
    UncutSame(Object(event), maxStringBytes, 0);
  }

  /** Strings, keys and nesting of a line are within the caps, whichever of the three forms it takes. */
  lemma LineCapped(event: seq<Member>, maxStringBytes: nat, maxEventBytes: int)
    requires maxStringBytes >= |TRUNCATED|
    ensures Capped(Object(LineOf(event, maxStringBytes, maxEventBytes)), maxStringBytes, MAX_DEPTH)
  {
    hide ByteLength, Bound, Capped, MemberCapped, Put, Cuts, Fits, Scalars, Lookup;
    MembersOfCapped(event, maxStringBytes);
    NamesCapped(maxStringBytes);
    var flag := Member(TRUNCATED, TRUE);
    var levels := MAX_DEPTH - 1;
    PutCapped(Bound(Object(event), maxStringBytes, 0).members, flag, maxStringBytes, levels);
    var bounded := BoundEvent(event, maxStringBytes);
    ScalarsAmong(bounded);
    PutCapped(Scalars(bounded), flag, maxStringBytes, levels);
    if Lookup(bounded, TYPE).Some? {
      TypeCapped(bounded, maxStringBytes);
    }
    ObjectCapped(LineOf(event, maxStringBytes, maxEventBytes), maxStringBytes);
  }

  lemma {:induction false} ScalarsAmong(members: seq<Member>)
    ensures forall m <- Scalars(members) :: m in members
  {
    if members != [] {
      ScalarsAmong(members[1..]);
    }
  }

  lemma NamesCapped(maxBytes: nat)
    requires maxBytes >= |TRUNCATED|
    ensures MemberCapped(Member(TRUNCATED, TRUE), maxBytes, MAX_DEPTH - 1) && ByteLength(TYPE) <= maxBytes
  {
    hide ByteLength;
    AsciiBytes(TRUNCATED);
    AsciiBytes(TYPE);
    TrueCapped(maxBytes);
  }

  lemma TypeCapped(members: seq<Member>, maxBytes: nat)
    requires (forall m <- members :: MemberCapped(m, maxBytes, MAX_DEPTH - 1)) && ByteLength(TYPE) <= maxBytes
    requires Lookup(members, TYPE).Some?
    ensures MemberCapped(Member(TYPE, Lookup(members, TYPE).value), maxBytes, MAX_DEPTH - 1)
  {
  }

  lemma TrueCapped(maxBytes: nat)
    ensures Capped(TRUE, maxBytes, MAX_DEPTH - 1)
  {
  }

  lemma MembersOfCapped(event: seq<Member>, maxBytes: nat)
    ensures Bound(Object(event), maxBytes, 0).Object?
    ensures forall m <- Bound(Object(event), maxBytes, 0).members :: MemberCapped(m, maxBytes, MAX_DEPTH - 1)
  {
    BoundIsCapped(Object(event), maxBytes, 0);
    var bounded := Bound(Object(event), maxBytes, 0).members;
    forall m <- bounded
      ensures MemberCapped(m, maxBytes, MAX_DEPTH - 1)
    {
      var i :| 0 <= i < |bounded| && bounded[i] == m;
    }
  }

  lemma ObjectCapped(members: seq<Member>, maxBytes: nat)
    requires forall m <- members :: MemberCapped(m, maxBytes, MAX_DEPTH - 1)
    ensures Capped(Object(members), maxBytes, MAX_DEPTH)
  {
    forall i | 0 <= i < |members|
      ensures MemberCapped(members[i], maxBytes, MAX_DEPTH - 1)
    {
      assert members[i] in members;
    }
  }

  lemma {:induction false} AsciiBytes(s: Str)
    requires forall i :: 0 <= i < |s| ==> s[i] < 0x80
    ensures ByteLength(s) == |s|
  {
    if s != [] {
      AsciiBytes(s[..|s| - 1]);
    }
  }
}
