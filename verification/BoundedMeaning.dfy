/** What a bounded JSON line keeps of its event, and that it is one line of JSON that means it. */
module BoundedMeaning {
  import opened Options
  import opened BoundedLine
  import JsonString

  // --- what bounding keeps ------------------------------------------------------------------------------

  /** A text within the cap stays; of another one the longest front of whole code points does, but for a mark. */
  ghost predicate TextKept(s: Str, kept: Str, maxBytes: nat) {
    if ByteLength(s) <= maxBytes then kept == s
    else
      var k := Whole(s, maxBytes);
      && kept <= WellFormed(s) && ByteLength(kept) <= maxBytes && k - 1 <= |kept| <= k
      && (|kept| == k - 1 <==>
          k > 0 && Encoded(s[k - 1]) == 0xFFFD && !(k < |s| && ByteLength(s[..k]) < maxBytes))
  }

  lemma BoundTextKeeps(s: Str, maxBytes: nat, kept: Str)
    ensures kept == BoundText(s, maxBytes) <==> TextKept(s, kept, maxBytes)
  {
    hide ByteLength, Whole, TruncateUtf8, WellFormed;
    TruncatedIsPrefix(s, maxBytes);
  }

  /** "[truncated: depth]" */
  predicate IsDepthMark(v: Json) {
    v.String? && |v.text| == 18 && forall i :: 0 <= i < 18 ==> v.text[i] == "[truncated: depth]"[i] as int
  }

  /** A value and what bounding makes of it, with so many levels of containers left. */
  ghost predicate Shortens(v: Json, r: Json, maxBytes: nat, levels: nat)
    decreases v, 1
  {
    match v
    case Atom(_) => r == v
    case String(text) => r.String? && TextKept(text, r.text, maxBytes)
    case Array(items) =>
      if levels == 0 then IsDepthMark(r)
      else r.Array? && |r.items| == |items|
           && forall i :: 0 <= i < |items| ==> Shortens(items[i], r.items[i], maxBytes, levels - 1)
    case Object(members) =>
      if levels == 0 then IsDepthMark(r)
      else r.Object? && MembersKept(v, members, |members|, r.members, maxBytes, levels - 1)
  }

  ghost predicate IsKept(key: Str, r: seq<Member>, maxBytes: nat) {
    exists m :: m in r && TextKept(key, m.key, maxBytes)
  }

  /** What the first members of an object become: no key is lost, and each one has the last value that it stands for. */
  ghost predicate MembersKept(v: Json, members: seq<Member>, n: nat, r: seq<Member>, maxBytes: nat, levels: nat)
    requires n <= |members| && forall m <- members :: m.value < v
    decreases v, 0
  {
    && DistinctKeys(r)
    && (forall i :: 0 <= i < n ==> IsKept(members[i].key, r, maxBytes))
    && (forall m <- r :: exists i :: 0 <= i < n && members[i] in members && LastOf(members, i, n, m.key, maxBytes)
                                     && Shortens(members[i].value, m.value, maxBytes, levels))
  }

  /** The last of the first members whose key becomes this one. */
  ghost predicate LastOf(members: seq<Member>, i: nat, n: nat, key: Str, maxBytes: nat)
    requires i < n <= |members|
  {
    && TextKept(members[i].key, key, maxBytes)
    && forall j :: i < j < n ==> !TextKept(members[j].key, key, maxBytes)
  }

  lemma {:induction false} PutMembers(members: seq<Member>, key: Str, value: Json)
    requires DistinctKeys(members)
    ensures DistinctKeys(Put(members, key, value))
    ensures forall m :: m in Put(members, key, value) <==> m == Member(key, value) || (m in members && m.key != key)
  {
    if members != [] {
      var rest := members[1..];
      assert members == [members[0]] + rest;
      PutMembers(rest, key, value);
      OthersDiffer(members);
      if members[0].key != key {
        ConsDistinct(members[0], Put(rest, key, value));
      } else {
        ConsDistinct(Member(key, value), rest);
      }
    }
  }

  lemma OthersDiffer(members: seq<Member>)
    requires DistinctKeys(members) && members != []
    ensures forall m <- members[1..] :: m.key != members[0].key
    ensures DistinctKeys(members[1..])
  {
  }

  lemma ConsDistinct(first: Member, rest: seq<Member>)
    requires DistinctKeys(rest) && forall m <- rest :: m.key != first.key
    ensures DistinctKeys([first] + rest)
  {
    var all := [first] + rest;
    forall i, j | 0 <= i < j < |all|
      ensures all[i].key != all[j].key
    {
      assert all[j] == rest[j - 1] && rest[j - 1] in rest;
    }
  }

  lemma {:induction false} ItemsShorten(v: Json, items: seq<Json>, n: nat, maxBytes: nat, depth: nat)
    requires n <= |items| && (forall item <- items :: item < v) && depth <= 64
    ensures forall i :: 0 <= i < n ==>
            Shortens(items[i], BoundItems(v, items, n, maxBytes, depth)[i], maxBytes, 64 - depth)
    decreases v, 0, n
  {
    hide Shortens;
    if n > 0 {
      assert items[n - 1] in items;
      ItemsShorten(v, items, n - 1, maxBytes, depth);
      BoundShortens(items[n - 1], maxBytes, depth);
    }
  }

  lemma {:induction false} MembersShorten(v: Json, members: seq<Member>, n: nat, maxBytes: nat, depth: nat)
    requires n <= |members| && (forall m <- members :: m.value < v) && depth <= 64
    ensures MembersKept(v, members, n, BoundMembers(v, members, n, maxBytes, depth), maxBytes, 64 - depth)
    decreases v, 0, n
  {
    hide Shortens, TextKept, BoundText, Put, BoundMembers, MembersKept;
    if n == 0 {
      NoMembers(v, members, maxBytes, depth);
      NothingKept(v, members, maxBytes, 64 - depth);
    } else {
      assert members[n - 1] in members;
      MembersShorten(v, members, n - 1, maxBytes, depth);
      BoundShortens(members[n - 1].value, maxBytes, depth);
      MembersStep(v, members, n, maxBytes, depth);
      MemberKept(v, members, n - 1, BoundMembers(v, members, n - 1, maxBytes, depth),
          BoundText(members[n - 1].key, maxBytes), Bound(members[n - 1].value, maxBytes, depth), maxBytes, 64 - depth);
    }
  }

  lemma NothingKept(v: Json, members: seq<Member>, maxBytes: nat, levels: nat)
    requires forall m <- members :: m.value < v
    ensures MembersKept(v, members, 0, [], maxBytes, levels)
  {
  }

  lemma HasKept(key: Str, r: seq<Member>, m: Member, maxBytes: nat)
    requires m in r && TextKept(key, m.key, maxBytes)
    ensures IsKept(key, r, maxBytes)
  {
  }

  lemma Keeper(key: Str, r: seq<Member>, maxBytes: nat) returns (m: Member)
    requires IsKept(key, r, maxBytes)
    ensures m in r && TextKept(key, m.key, maxBytes)
  {
    m :| m in r && TextKept(key, m.key, maxBytes);
  }

  lemma LastIsLast(members: seq<Member>, n: nat, key: Str, maxBytes: nat)
    requires n < |members| && TextKept(members[n].key, key, maxBytes)
    ensures LastOf(members, n, n + 1, key, maxBytes)
  {
  }

  lemma LastStays(members: seq<Member>, i: nat, n: nat, key: Str, maxBytes: nat)
    requires i < n < |members| && LastOf(members, i, n, key, maxBytes) && !TextKept(members[n].key, key, maxBytes)
    ensures LastOf(members, i, n + 1, key, maxBytes)
  {
  }

  /** One member more: it takes the place of an earlier one whose key has become the same. */
  lemma MemberKept(v: Json, members: seq<Member>, n: nat, r: seq<Member>, key: Str, value: Json, maxBytes: nat,
      levels: nat)
    requires n < |members| && (forall m <- members :: m.value < v) && MembersKept(v, members, n, r, maxBytes, levels)
    requires key == BoundText(members[n].key, maxBytes) && Shortens(members[n].value, value, maxBytes, levels)
    ensures MembersKept(v, members, n + 1, Put(r, key, value), maxBytes, levels)
  {
    hide Shortens, TextKept, BoundText, Put, DistinctKeys, IsKept, LastOf;
    var after := Put(r, key, value);
    PutMembers(r, key, value);
    BoundTextKeeps(members[n].key, maxBytes, key);
    forall i | 0 <= i < n + 1
      ensures IsKept(members[i].key, after, maxBytes)
    {
      if i == n {
        HasKept(members[n].key, after, Member(key, value), maxBytes);
      } else {
        var m := Keeper(members[i].key, r, maxBytes);
        HasKept(members[i].key, after, if m.key == key then Member(key, value) else m, maxBytes);
      }
    }
    forall m <- after
      ensures exists i :: 0 <= i < n + 1 && members[i] in members && LastOf(members, i, n + 1, m.key, maxBytes)
                          && Shortens(members[i].value, m.value, maxBytes, levels)
    {
      if m == Member(key, value) {
        assert members[n] in members;
        LastIsLast(members, n, key, maxBytes);
      } else {
        assert m in r && m.key != key;
        var i :| 0 <= i < n && members[i] in members && LastOf(members, i, n, m.key, maxBytes)
                 && Shortens(members[i].value, m.value, maxBytes, levels);
        BoundTextKeeps(members[n].key, maxBytes, m.key);
        LastStays(members, i, n, m.key, maxBytes);
      }
    }
  }

  /** Bounding keeps every scalar, cuts strings and keys, and replaces what is nested too deeply by a mark. */
  lemma {:induction false} BoundShortens(v: Json, maxBytes: nat, depth: nat)
    requires depth <= 64
    ensures Shortens(v, Bound(v, maxBytes, depth), maxBytes, 64 - depth)
    decreases v, 1
  {
    hide Bound, Shortens, MembersKept, BoundItems, BoundMembers;
    match v
    case Atom(_) => AtomShortens(v, maxBytes, depth);
    case String(_) => AtomShortens(v, maxBytes, depth);
    case Array(items) =>
      if depth < 64 {
        ItemsShorten(v, items, |items|, maxBytes, depth + 1);
        ArrayShortens(v, items, maxBytes, depth);
      } else {
        DeepShortens(v, maxBytes, depth);
      }
    case Object(members) =>
      if depth < 64 {
        MembersShorten(v, members, |members|, maxBytes, depth + 1);
        ObjectShortens(v, members, maxBytes, depth);
      } else {
        DeepShortens(v, maxBytes, depth);
      }
  }

  lemma AtomShortens(v: Json, maxBytes: nat, depth: nat)
    requires depth <= 64 && (v.Atom? || v.String?)
    ensures Shortens(v, Bound(v, maxBytes, depth), maxBytes, 64 - depth)
  {
    hide BoundText, TextKept;
    if v.String? {
      BoundTextKeeps(v.text, maxBytes, BoundText(v.text, maxBytes));
    }
  }

  lemma DeepShortens(v: Json, maxBytes: nat, depth: nat)
    requires depth == 64 && (v.Array? || v.Object?)
    ensures Shortens(v, Bound(v, maxBytes, depth), maxBytes, 0)
  {
    hide BoundItems, BoundMembers, IsDepthMark, MembersKept;
    DepthMark();
  }

  lemma ArrayShortens(v: Json, items: seq<Json>, maxBytes: nat, depth: nat)
    requires v == Array(items) && depth < 64
    requires forall i :: 0 <= i < |items| ==>
               Shortens(items[i], BoundItems(v, items, |items|, maxBytes, depth + 1)[i], maxBytes, 64 - depth - 1)
    ensures Shortens(v, Bound(v, maxBytes, depth), maxBytes, 64 - depth)
  {
    hide BoundItems, BoundMembers, IsDepthMark, MembersKept;
  }

  lemma ObjectShortens(v: Json, members: seq<Member>, maxBytes: nat, depth: nat)
    requires v == Object(members) && depth < 64
    requires MembersKept(v, members, |members|, BoundMembers(v, members, |members|, maxBytes, depth + 1), maxBytes,
               64 - depth - 1)
    ensures Shortens(v, Bound(v, maxBytes, depth), maxBytes, 64 - depth)
  {
    hide BoundItems, BoundMembers, IsDepthMark, MembersKept;
  }

  lemma DepthMark()
    ensures IsDepthMark(String(DEPTH_MARKER))
  {
  }

  // --- when the flag is raised --------------------------------------------------------------------------

  /** A proper value is changed by bounding exactly if the flag is raised for it. */
  lemma {:induction false} FlagMeansChange(v: Json, maxBytes: nat, depth: nat)
    requires Proper(v) && depth <= MAX_DEPTH
    ensures Bound(v, maxBytes, depth) == v <==> !Cuts(v, maxBytes, depth)
    decreases v, 1
  {
    hide TruncateUtf8, ByteLength, Whole, BoundMembers, BoundItems, MembersCut, ItemsCut, Put;
    if !Cuts(v, maxBytes, depth) {
      UncutSame(v, maxBytes, depth);
    } else {
      match v {
        case String(text) => TruncatedIsPrefix(text, maxBytes);
        case Array(items) =>
          if depth < MAX_DEPTH {
            ItemsChange(v, items, |items|, maxBytes, depth + 1);
          }
        case Object(members) =>
          if depth < MAX_DEPTH {
            MembersChange(v, members, maxBytes, depth + 1);
          }
        case _ =>
      }
    }
  }

  lemma {:induction false} ItemsChange(v: Json, items: seq<Json>, n: nat, maxBytes: nat, depth: nat)
    requires n <= |items| && (forall item <- items :: item < v) && depth <= MAX_DEPTH
    requires forall i :: 0 <= i < |items| ==> Proper(items[i])
    requires ItemsCut(v, items, n, maxBytes, depth)
    ensures BoundItems(v, items, n, maxBytes, depth) != items[..n]
    decreases v, 0, n
  {
    hide Bound, Cuts, Proper;
    assert items[n - 1] in items;
    FlagMeansChange(items[n - 1], maxBytes, depth);
    var r := BoundItems(v, items, n, maxBytes, depth);
    if ItemsCut(v, items, n - 1, maxBytes, depth) {
      ItemsChange(v, items, n - 1, maxBytes, depth);
      assert r[..n - 1] == BoundItems(v, items, n - 1, maxBytes, depth);
      assert items[..n][..n - 1] == items[..n - 1];
    } else {
      assert r[n - 1] == Bound(items[n - 1], maxBytes, depth) && items[..n][n - 1] == items[n - 1];
    }
  }

  /** Which member is cut, if any is. */
  lemma {:induction false} CutMember(v: Json, members: seq<Member>, n: nat, maxBytes: nat, depth: nat) returns (i: nat)
    requires n <= |members| && (forall m <- members :: m.value < v) && MembersCut(v, members, n, maxBytes, depth)
    ensures i < n && (TooLong(members[i].key, maxBytes) || Cuts(members[i].value, maxBytes, depth))
    decreases n
  {
    hide Cuts, TooLong;
    assert members[n - 1] in members;
    if MembersCut(v, members, n - 1, maxBytes, depth) {
      i := CutMember(v, members, n - 1, maxBytes, depth);
    } else {
      i := n - 1;
    }
  }

  lemma {:induction false} MembersChange(v: Json, members: seq<Member>, maxBytes: nat, depth: nat)
    requires (forall m <- members :: m.value < v) && depth <= MAX_DEPTH && DistinctKeys(members)
    requires forall i :: 0 <= i < |members| ==> Proper(members[i].value)
    requires MembersCut(v, members, |members|, maxBytes, depth)
    ensures BoundMembers(v, members, |members|, maxBytes, depth) != members
    decreases v, 0, |members|
  {
    hide Bound, Cuts, Proper, BoundMembers, ByteLength, Capped, Shortens, TextKept, BoundText;
    var r := BoundMembers(v, members, |members|, maxBytes, depth);
    var i := CutMember(v, members, |members|, maxBytes, depth);
    if r == members {
      MembersCapped(v, members, |members|, maxBytes, depth);
      assert members[i] in r && MemberCapped(members[i], maxBytes, MAX_DEPTH - depth);
      forall j | 0 <= j < |members|
        ensures BoundText(members[j].key, maxBytes) == members[j].key
      {
        assert members[j] in r && MemberCapped(members[j], maxBytes, MAX_DEPTH - depth);
        ShortText(members[j].key, maxBytes);
      }
      ValuesBounded(v, members, |members|, maxBytes, depth);
      assert members[i].value == Bound(members[i].value, maxBytes, depth);
      assert members[i] in members;
      FlagMeansChange(members[i].value, maxBytes, depth);
    }
  }

  lemma ShortText(s: Str, maxBytes: nat)
    requires ByteLength(s) <= maxBytes
    ensures BoundText(s, maxBytes) == s && !TooLong(s, maxBytes)
  {
  }

  /** With no key cut, every member keeps its place and has its value bounded. */
  lemma {:induction false} ValuesBounded(v: Json, members: seq<Member>, n: nat, maxBytes: nat, depth: nat)
    requires n <= |members| && (forall m <- members :: m.value < v) && DistinctKeys(members)
    requires forall j :: 0 <= j < |members| ==> BoundText(members[j].key, maxBytes) == members[j].key
    ensures var r := BoundMembers(v, members, n, maxBytes, depth);
            |r| == n && forall j :: 0 <= j < n ==>
              members[j] in members && r[j] == Member(members[j].key, Bound(members[j].value, maxBytes, depth))
    decreases n
  {
    hide Bound, BoundText, BoundMembers, Put;
    if n == 0 {
      NoMembers(v, members, maxBytes, depth);
    } else {
      ValuesBounded(v, members, n - 1, maxBytes, depth);
      MembersStep(v, members, n, maxBytes, depth);
      var before := BoundMembers(v, members, n - 1, maxBytes, depth);
      forall m <- before
        ensures m.key != members[n - 1].key
      {
        var j :| 0 <= j < |before| && before[j] == m;
      }
      PutNew(before, members[n - 1].key, Bound(members[n - 1].value, maxBytes, depth));
    }
  }

  // --- the three forms of a line ------------------------------------------------------------------------

  /** "truncated", with the value true. */
  predicate IsFlag(m: Member) {
    && m.value.Atom? && |m.key| == 9 && |m.value.text| == 4
    && (forall i :: 0 <= i < 9 ==> m.key[i] == "truncated"[i] as int)
    && forall i :: 0 <= i < 4 ==> m.value.text[i] == "true"[i] as int
  }

  lemma FlagIs(m: Member)
    ensures IsFlag(m) <==> m == Member(TRUNCATED, TRUE)
  {
    if IsFlag(m) {
      assert m.key == TRUNCATED && m.value.text == [0x74, 0x72, 0x75, 0x65];
    }
  }

  lemma {:induction false} ScalarsAre(members: seq<Member>)
    requires DistinctKeys(members)
    ensures DistinctKeys(Scalars(members))
    ensures forall m :: m in Scalars(members) <==> m in members && (m.value.Atom? || m.value.String?)
  {
    if members != [] {
      var rest := members[1..];
      assert members == [members[0]] + rest;
      OthersDiffer(members);
      ScalarsAre(rest);
      if Scalar(members[0].value) {
        ConsDistinct(members[0], Scalars(rest));
      }
    }
  }

  /** The bounded event: with the flag exactly if anything was cut, and otherwise the bounded members alone. */
  lemma EventForm(event: seq<Member>, maxStringBytes: nat)
    ensures var r, bounded := BoundEvent(event, maxStringBytes), Bound(Object(event), maxStringBytes, 0);
            && bounded.Object? && DistinctKeys(r)
            && if Cuts(Object(event), maxStringBytes, 0) then
                 forall m :: m in r <==> IsFlag(m) || (m in bounded.members && m.key != TRUNCATED)
               else r == bounded.members
  {
    hide Bound, Cuts, Put, Shortens, TextKept, IsFlag;
    BoundShortens(Object(event), maxStringBytes, 0);
    BoundedObject(event, maxStringBytes);
    PutMembers(Bound(Object(event), maxStringBytes, 0).members, TRUNCATED, TRUE);
    forall m {:trigger IsFlag(m)}
      ensures IsFlag(m) <==> m == Member(TRUNCATED, TRUE)
    {
      FlagIs(m);
    }
  }

  lemma BoundedObject(event: seq<Member>, maxStringBytes: nat)
    requires Shortens(Object(event), Bound(Object(event), maxStringBytes, 0), maxStringBytes, 64)
    ensures Bound(Object(event), maxStringBytes, 0).Object?
    ensures DistinctKeys(Bound(Object(event), maxStringBytes, 0).members)
  {
  }

  /**
   A line is the bounded event if that fits; else, if they fit, its scalar members and the flag, none left out; else the
   value of `type`, if there is one, and the flag.
   */
  lemma LineForms(event: seq<Member>, maxStringBytes: nat, maxEventBytes: int)
    ensures var line, r := LineOf(event, maxStringBytes, maxEventBytes), BoundEvent(event, maxStringBytes);
            && (Fits(r, maxEventBytes) ==> line == r)
            && (!Fits(r, maxEventBytes) ==> exists m :: m in line && IsFlag(m))
            && (!Fits(r, maxEventBytes) && Fits(Flagged(Scalars(r)), maxEventBytes) ==>
                  forall m :: m in line <==>
                    IsFlag(m) || (m in r && m.key != TRUNCATED && (m.value.Atom? || m.value.String?)))
            && (!Fits(r, maxEventBytes) && !Fits(Flagged(Scalars(r)), maxEventBytes) ==>
                  forall m :: m in line <==> IsFlag(m) || (m.key == TYPE && Lookup(r, TYPE) == Some(m.value)))
  {
    hide BoundEvent, Fits, IsFlag, Put, Scalars;
    var r := BoundEvent(event, maxStringBytes);
    EventForm(event, maxStringBytes);
    ScalarsAre(r);
    PutMembers(Scalars(r), TRUNCATED, TRUE);
    forall m {:trigger IsFlag(m)}
      ensures IsFlag(m) <==> m == Member(TRUNCATED, TRUE)
    {
      FlagIs(m);
    }
    if !Fits(r, maxEventBytes) {
      assert IsFlag(Member(TRUNCATED, TRUE)) && Member(TRUNCATED, TRUE) in LineOf(event, maxStringBytes, maxEventBytes);
    }
  }

  // --- the text of a line -------------------------------------------------------------------------------

  /** A piece of JSON text that denotes one code point: itself, a two-character escape, or four hexadecimal digits. */
  ghost predicate Denotes(piece: Str, c: CodePoint) {
    || (piece == [c] && c >= 0x20 && c != '"' as int && c != '\\' as int && !LoneSurrogate(c))
    || (&& |piece| == 2 && piece[0] == '\\' as int && piece[1] < 0x1_0000 && piece[1] in JsonString.ESCAPES
        && JsonString.ESCAPES[piece[1]] == c)
    || (&& |piece| == 6 && piece[0] == '\\' as int && piece[1] == 'u' as int && c < 0x1_0000
        && var digits := JsonString.FourDigits(c, [false, false, false, false]);
           forall i :: 0 <= i < 4 ==> piece[2 + i] == digits[i])
  }

  /** A text of pieces that denote the code points of another one. */
  ghost predicate Spells(t: Str, s: Str) {
    if s == [] then t == []
    else exists n :: 0 <= n <= |t| && Denotes(t[n..], s[|s| - 1]) && Spells(t[..n], s[..|s| - 1])
  }

  lemma EscapeDenotes(c: CodePoint)
    ensures Denotes(Escape(c), c)
    ensures forall x <- Escape(c) :: x >= 0x20
  {
    if c < 0x20 || LoneSurrogate(c) {
      HexDigits(c);
    }
  }

  lemma HexDigits(c: CodePoint)
    requires c < 0x1_0000
    ensures var digits := JsonString.FourDigits(c, [false, false, false, false]);
            && digits[0] == HexDigit(c / 0x1000) && digits[1] == HexDigit(c / 0x100 % 16)
            && digits[2] == HexDigit(c / 16 % 16) && digits[3] == HexDigit(c % 16)
  {
    LowerDigit(c / 0x1000);
    LowerDigit(c / 0x100 % 16);
    LowerDigit(c / 16 % 16);
    LowerDigit(c % 16);
  }

  lemma LowerDigit(d: nat)
    requires d < 16
    ensures JsonString.Digit(d, false) == HexDigit(d)
  {
  }

  /** A string is spelled so that a JSON parser reads the same string, and without line breaks. */
  lemma {:induction false} EscapedSpells(s: Str)
    ensures Spells(Escaped(s), s)
    ensures forall x <- Escaped(s) :: x >= 0x20
  {
    hide Escape, Denotes;
    if s != [] {
      var n := |s| - 1;
      EscapedSpells(s[..n]);
      EscapeDenotes(s[n]);
      var t, k := Escaped(s), |Escaped(s[..n])|;
      assert t[..k] == Escaped(s[..n]) && t[k..] == Escape(s[n]);
    }
  }

  function Joined(texts: seq<Str>): Str {
    if texts == [] then [] else if |texts| == 1 then texts[0] else texts[0] + [',' as int] + Joined(texts[1..])
  }

  lemma {:induction false} JoinedSnoc(texts: seq<Str>, last: Str)
    ensures Joined(texts + [last]) == if texts == [] then last else Joined(texts) + [',' as int] + last
  {
    if texts != [] {
      assert (texts + [last])[1..] == texts[1..] + [last];
      JoinedSnoc(texts[1..], last);
    }
  }

  function ItemTexts(items: seq<Json>): seq<Str> {
    seq(|items|, i requires 0 <= i < |items| => Serialize(items[i]))
  }

  function MemberTexts(members: seq<Member>): seq<Str> {
    seq(|members|, i requires 0 <= i < |members| =>
      ['"' as int] + Escaped(members[i].key) + ['"' as int, ':' as int] + Serialize(members[i].value))
  }

  lemma {:induction false} ItemsJoined(v: Json, items: seq<Json>, n: nat)
    requires n <= |items| && forall item <- items :: item < v
    ensures SerializeItems(v, items, n) == Joined(ItemTexts(items[..n]))
    decreases n
  {
    hide Serialize;
    if n > 0 {
      assert items[n - 1] in items;
      ItemsJoined(v, items, n - 1);
      assert ItemTexts(items[..n]) == ItemTexts(items[..n - 1]) + [Serialize(items[n - 1])];
      JoinedSnoc(ItemTexts(items[..n - 1]), Serialize(items[n - 1]));
    }
  }

  lemma {:induction false} MembersJoined(v: Json, members: seq<Member>, n: nat)
    requires n <= |members| && forall m <- members :: m.value < v
    ensures SerializeMembers(v, members, n) == Joined(MemberTexts(members[..n]))
    decreases n
  {
    hide Serialize, Escaped;
    if n > 0 {
      var m := members[n - 1];
      assert m in members;
      MembersJoined(v, members, n - 1);
      var text := ['"' as int] + Escaped(m.key) + ['"' as int, ':' as int] + Serialize(m.value);
      assert text == Quoted(m.key) + [COLON] + Serialize(m.value);
      assert MemberTexts(members[..n]) == MemberTexts(members[..n - 1]) + [text];
      JoinedSnoc(MemberTexts(members[..n - 1]), text);
    }
  }

  /** Every value is printed as sections 3 to 7 of RFC 8259 have it, without white space. */
  lemma PrintsAsJson(v: Json)
    ensures Serialize(v) ==
            match v
            case Atom(text) => text
            case String(text) => ['"' as int] + Escaped(text) + ['"' as int]
            case Array(items) => ['[' as int] + Joined(ItemTexts(items)) + [']' as int]
            case Object(members) => ['{' as int] + Joined(MemberTexts(members)) + ['}' as int]
  {
    match v
    case Array(items) =>
      ItemsJoined(v, items, |items|);
      assert items[..|items|] == items;
    case Object(members) =>
      MembersJoined(v, members, |members|);
      assert members[..|members|] == members;
    case _ =>
  }
}
