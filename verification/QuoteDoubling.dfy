/**
  `escape_quotes_for_drizzle` of drizzled/charset.cc: quotes are doubled into a
  buffer of limited size, and a multi-byte character is copied whole or not at
  all.
 */
module QuoteDoubling {
  import opened Rds
  import opened Scanner
  import opened ServerText
  import opened DumpQuoting

  const UINT32_MAX: nat := 0xFFFF_FFFF

  /** How many bytes the next character has. */
  function UnitLength(multi: bool, s: bytes): (u: nat)
    requires s != []
    ensures 1 <= u <= |s|
  {
    var k := MbLength(multi, s);
    if k != 0 then k else 1
  }

  /** A prefix of `m` bytes ends between characters. */
  predicate Aligned(multi: bool, s: bytes, m: nat)
    decreases |s|
  {
    m == 0 || (s != [] && (var u := UnitLength(multi, s); u <= m && Aligned(multi, s[u..], m - u)))
  }

  /** How much of `s` is taken when the escaped text has to fit into `room` bytes. */
  function Taken(multi: bool, s: bytes, room: nat): (n: nat)
    ensures n <= |s|
    decreases |s|
  {
    if s == [] then 0
    else
      var u := UnitLength(multi, s);
      var c := if s[0] == QUOTE then 2 else u;
      if c > room then 0 else u + Taken(multi, s[u..], room - c)
  }

  // ---------------------------------------------------------------- one character

  lemma UnitDoubled(multi: bool, s: bytes)
    requires s != []
    ensures var u := UnitLength(multi, s); Doubled(QUOTE, s[..u]) == if s[0] == QUOTE then [QUOTE, QUOTE] else s[..u]
  {
    var u := UnitLength(multi, s);
    MultiByteIsHigh(multi, s);
    var unit := s[..u];
    if s[0] == QUOTE {
      assert unit == [QUOTE] && unit[1..] == [];
      assert Doubled(QUOTE, unit[1..]) == [];
    } else {
      assert QUOTE !in unit;
      hide UnitLength;
      DoubledSkip(QUOTE, unit, u);
      assert unit[..u] == unit && unit[u..] == [] && Doubled(QUOTE, []) == [];
    }
  }

  lemma {:induction false} DoubledAppend(quote: byte, a: bytes, b: bytes)
    ensures Doubled(quote, a + b) == Doubled(quote, a) + Doubled(quote, b)
  {
    if a == [] {
      assert a + b == b;
    } else {
      var e := if a[0] == quote then [quote, quote] else [a[0]];
      assert (a + b)[1..] == a[1..] + b;
      assert Doubled(quote, a) == e + Doubled(quote, a[1..]) && Doubled(quote, a + b) == e + Doubled(quote, a[1..] + b);
      DoubledAppend(quote, a[1..], b);
      hide Doubled;
      Assoc(e, Doubled(quote, a[1..]), Doubled(quote, b));
    }
  }

  /** The escaped size of a prefix that holds the first character. */
  lemma PrefixSize(multi: bool, s: bytes, m: nat)
    requires s != [] && UnitLength(multi, s) <= m <= |s|
    ensures var u := UnitLength(multi, s);
      |Doubled(QUOTE, s[..m])| == (if s[0] == QUOTE then 2 else u) + |Doubled(QUOTE, s[u..][..m - u])|
  {
    var u := UnitLength(multi, s);
    UnitDoubled(multi, s);
    DoubledAppend(QUOTE, s[..u], s[u..][..m - u]);
    assert s[..m] == s[..u] + s[u..][..m - u];
    MultiByteIsHigh(multi, s);
  }

  // ---------------------------------------------------------------- what is taken

  lemma {:induction false} AlignedIsPrefix(multi: bool, s: bytes, m: nat)
    requires Aligned(multi, s, m)
    ensures m <= |s|
    decreases |s|
  {
    if m != 0 {
      var u := UnitLength(multi, s);
      AlignedIsPrefix(multi, s[u..], m - u);
    }
  }

  lemma {:induction false} TakenFits(multi: bool, s: bytes, room: nat)
    ensures var n := Taken(multi, s, room); Aligned(multi, s, n) && |Doubled(QUOTE, s[..n])| <= room
    decreases |s|
  {
    var n := Taken(multi, s, room);
    if n == 0 {
      assert s[..0] == [];
    } else {
      var u := UnitLength(multi, s);
      var c := if s[0] == QUOTE then 2 else u;
      TakenFits(multi, s[u..], room - c);
      PrefixSize(multi, s, n);
      assert Aligned(multi, s, n);
      hide UnitLength, Doubled, Aligned;
    }
  }

  lemma {:induction false} NothingLongerFits(multi: bool, s: bytes, room: nat, m: nat)
    requires Aligned(multi, s, m) && m <= |s| && |Doubled(QUOTE, s[..m])| <= room
    ensures m <= Taken(multi, s, room)
    decreases |s|
  {
    if m != 0 {
      var u := UnitLength(multi, s);
      PrefixSize(multi, s, m);
      AlignedIsPrefix(multi, s[u..], m - u);
      hide Doubled, UnitLength;
      var c := if s[0] == QUOTE then 2 else u;
      NothingLongerFits(multi, s[u..], room - c, m - u);
    }
  }

  /** Law: the longest prefix of whole characters whose escaped form fits is taken. */
  lemma LongestPrefixIsTaken(multi: bool, s: bytes, room: nat, m: nat)
    requires m <= |s|
    ensures m == Taken(multi, s, room) <==>
      && Aligned(multi, s, m) && |Doubled(QUOTE, s[..m])| <= room
      && forall l :: m < l <= |s| && Aligned(multi, s, l) ==> |Doubled(QUOTE, s[..l])| > room
  {
    TakenFits(multi, s, room);
    hide Doubled, Aligned, Taken;
    var n := Taken(multi, s, room);
    forall l | n < l <= |s| && Aligned(multi, s, l) ensures |Doubled(QUOTE, s[..l])| > room {
      if |Doubled(QUOTE, s[..l])| <= room {
        NothingLongerFits(multi, s, room, l);
      }
    }
    if Aligned(multi, s, m) && |Doubled(QUOTE, s[..m])| <= room {
      NothingLongerFits(multi, s, room, m);
    }
  }

  lemma {:induction false} WholeIsAligned(multi: bool, s: bytes)
    ensures Aligned(multi, s, |s|)
    decreases |s|
  {
    if s != [] {
      var u := UnitLength(multi, s);
      WholeIsAligned(multi, s[u..]);
    }
  }

  lemma {:induction false} DoubledSize(s: bytes)
    ensures |s| <= |Doubled(QUOTE, s)| <= 2 * |s|
  {
    if s != [] {
      DoubledSize(s[1..]);
    }
  }

  /** Law: everything is taken exactly if all of it fits, and twice the length is always enough. */
  lemma AllIsTaken(multi: bool, s: bytes, room: nat)
    ensures Taken(multi, s, room) == |s| <==> |Doubled(QUOTE, s)| <= room
    ensures Taken(multi, s, 2 * |s|) == |s|
  {
    WholeIsAligned(multi, s);
    DoubledSize(s);
    assert s[..|s|] == s;
    TakenFits(multi, s, room);
    hide Doubled, Taken, Aligned;
    if |Doubled(QUOTE, s)| <= room {
      NothingLongerFits(multi, s, room, |s|);
    }
    NothingLongerFits(multi, s, 2 * |s|, |s|);
  }

  // ---------------------------------------------------------------- undoing it

  /** Doubled quotes stand for one, where the reader knows characters. */
  function HalvedByCharacters(multi: bool, b: bytes): bytes
    decreases |b|
  {
    if b == [] then []
    else
      var k := MbLength(multi, b);
      if k != 0 then b[..k] + HalvedByCharacters(multi, b[k..])
      else if b[0] == QUOTE && |b| > 1 then [QUOTE] + HalvedByCharacters(multi, b[2..])
      else [b[0]] + HalvedByCharacters(multi, b[1..])
  }

  lemma {:induction false} CharactersDoNotMatter(multi: bool, b: bytes)
    ensures HalvedByCharacters(multi, b) == Halved(QUOTE, b)
    decreases |b|
  {
    if b != [] {
      var k := MbLength(multi, b);
      MultiByteIsHigh(multi, b);
      hide MbLength;
      if k != 0 {
        HalvedSkip(QUOTE, b, k);
        CharactersDoNotMatter(multi, b[k..]);
      } else {
        CharactersDoNotMatter(multi, b[1..]);
        if |b| > 1 {
          CharactersDoNotMatter(multi, b[2..]);
        }
      }
    }
  }

  /** Law: halving the doubled quotes of what was written gives back what was taken. */
  lemma HalvingRecovers(multi: bool, s: bytes, room: nat)
    ensures var n := Taken(multi, s, room); HalvedByCharacters(multi, Doubled(QUOTE, s[..n])) == s[..n]
  {
    var taken := s[..Taken(multi, s, room)];
    CharactersDoNotMatter(multi, Doubled(QUOTE, taken));
    HalvingUndoesDoubling(QUOTE, taken);
  }

  // ---------------------------------------------------------------- the loop

  /** What is written for the character at `i`. */
  function UnitText(multi: bool, s: bytes, i: nat): bytes
    requires i < |s|
  {
    if s[i] == QUOTE then [QUOTE, QUOTE] else s[i..i + UnitLength(multi, s[i..])]
  }

  lemma TakenStep(multi: bool, s: bytes, i: nat, room: nat)
    requires i < |s|
    ensures var u, c := UnitLength(multi, s[i..]), |UnitText(multi, s, i)|;
      Taken(multi, s[i..], room) == if c > room then 0 else u + Taken(multi, s[i + u..], room - c)
  {
    var u, rest := UnitLength(multi, s[i..]), s[i..];
    hide UnitLength;
    assert rest[0] == s[i];
    SplitAt(s, i, u);
    hide Taken;
    TakenFirst(multi, rest, room);
  }

  lemma TakenFirst(multi: bool, s: bytes, room: nat)
    requires s != []
    ensures var u := UnitLength(multi, s);
      var c := if s[0] == QUOTE then 2 else u;
      Taken(multi, s, room) == if c > room then 0 else u + Taken(multi, s[u..], room - c)
  {
    hide UnitLength;
  }

  lemma DoubledUnit(multi: bool, s: bytes, i: nat)
    requires i < |s|
    ensures Doubled(QUOTE, s[..i + UnitLength(multi, s[i..])]) == Doubled(QUOTE, s[..i]) + UnitText(multi, s, i)
    ensures MbLength(multi, s[i..]) != 0 ==> s[i] != QUOTE
  {
    var rest := s[i..];
    var u := UnitLength(multi, rest);
    UnitDoubled(multi, rest);
    assert rest[0] == s[i];
    hide UnitLength, Doubled;
    SplitAt(s, i, u);
    DoubledAppend(QUOTE, s[..i], s[i..i + u]);
  }

  lemma SplitAt(s: bytes, i: nat, u: nat)
    requires i + u <= |s|
    ensures s[i..][..u] == s[i..i + u] && s[..i + u] == s[..i] + s[i..i + u] && s[i..][u..] == s[i + u..]
  {
  }

  /** Nothing has changed from position `j` on. */
  ghost predicate SameFrom(now: bytes, was: bytes, j: nat) {
    |now| == |was| && forall p :: j <= p < |now| ==> now[p] == was[p]
  }

  /** `text` has been put at position `j`, with nothing changed before it and behind it. */
  ghost predicate Put(now: bytes, was: bytes, j: nat, text: bytes) {
    j + |text| <= |was| && SameFrom(now, was, j + |text|) && now[..j + |text|] == was[..j] + text
  }

  /** `*to++= …` for the bytes of one character. */
  method CopyBytes(to: array<byte>, j: nat, text: bytes)
    requires j + |text| <= to.Length
    modifies to
    ensures Put(to[..], old(to[..]), j, text)
  {
    var n := 0;
    while n < |text|
      invariant n <= |text|
      invariant to[..j + n] == old(to[..j]) + text[..n]
      invariant forall p :: j + n <= p < to.Length ==> to[p] == old(to[p])
    {
      ghost var done := to[..j + n];
      to[j + n] := text[n];
      assert to[..j + n + 1] == done + [text[n]];
      assert text[..n + 1] == text[..n] + [text[n]];
      n := n + 1;
    }
    assert text[..n] == text;
    assert to[..][..j + n] == to[..j + n] && old(to[..])[..j] == old(to[..j]);
  }

  /** The last usable position: room for the terminating NUL is kept. */
  function RoomIn(toLength: nat, from: bytes): nat {
    if toLength != 0 then toLength - 1 else 2 * |from|
  }

  /** What the call leaves in the buffer. */
  ghost predicate Written(to: bytes, was: bytes, text: bytes) {
    |text| < |to| == |was| && to[..|text|] == text && to[|text|] == 0 && SameFrom(to, was, |text| + 1)
  }

  /** The branches of the loop: how much of `from[i..]` is next, what is written for it, and whether that is too much. */
  method NextCharacter(multi: bool, from: bytes, i: nat, room: nat) returns (u: nat, text: bytes, overflow: bool)
    requires i < |from|
    ensures u > 0 && overflow == (|text| > room)
    ensures i + u <= |from| && Prefix(from, i + u) == Prefix(from, i) + text
    ensures StillTaken(multi, from, i, room) == if overflow then 0 else u + StillTaken(multi, from, i + u, room - |text|)
  {
    UnitStep(multi, from, i, room);
    hide StillTaken, Prefix;
    var tmpLength := MbLength(multi, from[i..]);
    if tmpLength != 0 {
      u, text, overflow := tmpLength, from[i..i + tmpLength], tmpLength > room;
    } else if from[i] == QUOTE {
      u, text, overflow := 1, [QUOTE, QUOTE], 2 > room;
    } else {
      u, text, overflow := 1, [from[i]], 1 > room;
    }
    hide MbLength;
    assert u == UnitLength(multi, from[i..]) && text == UnitText(multi, from, i);
    hide UnitText, UnitLength;
  }

  /** What has been written for the first `i` bytes. */
  function Prefix(s: bytes, i: nat): bytes
    requires i <= |s|
  {
    Doubled(QUOTE, s[..i])
  }

  /** How much will be taken from `i` on. */
  function StillTaken(multi: bool, s: bytes, i: nat, room: nat): nat
    requires i <= |s|
  {
    Taken(multi, s[i..], room)
  }

  lemma UnitStep(multi: bool, s: bytes, i: nat, room: nat)
    requires i < |s|
    ensures var u, text := UnitLength(multi, s[i..]), UnitText(multi, s, i);
      && Prefix(s, i + u) == Prefix(s, i) + text
      && StillTaken(multi, s, i, room) == if |text| > room then 0 else u + StillTaken(multi, s, i + u, room - |text|)
    ensures MbLength(multi, s[i..]) != 0 ==> s[i] != QUOTE
  {
    TakenStep(multi, s, i, room);
    DoubledUnit(multi, s, i);
    hide UnitLength, UnitText, Taken, Doubled;
  }

  lemma AtTheEnds(multi: bool, s: bytes, room: nat)
    ensures Prefix(s, 0) == [] && StillTaken(multi, s, 0, room) == Taken(multi, s, room) && StillTaken(multi, s, |s|, room) == 0
  {
    assert s[..0] == [] && s[0..] == s && s[|s|..] == [];
  }

  /** The first `i` bytes have been written, up to position `j`. */
  ghost predicate Progress(now: bytes, was: bytes, from: bytes, i: nat, j: nat) {
    i <= |from| && j <= |was| && SameFrom(now, was, j) && now[..j] == Prefix(from, i)
  }

  lemma StartsWithNothing(now: bytes, from: bytes)
    ensures Progress(now, now, from, 0, 0)
  {
    assert now[..0] == [] && from[..0] == [];
  }

  lemma OneUnitMore(now: bytes, before: bytes, was: bytes, from: bytes, i: nat, j: nat, u: nat, text: bytes)
    requires Progress(before, was, from, i, j) && Put(now, before, j, text)
    requires i + u <= |from| && Prefix(from, i + u) == Prefix(from, i) + text
    ensures Progress(now, was, from, i + u, j + |text|)
  {
    hide Prefix;
  }

  /** The loop of `escape_quotes_for_drizzle`. */
  method WriteCharacters(multi: bool, to: array<byte>, toEnd: nat, from: bytes) returns (i: nat, j: nat, overflow: bool)
    requires toEnd < to.Length
    modifies to
    ensures i == Taken(multi, from, toEnd) && overflow == (i < |from|)
    ensures j <= toEnd && Progress(to[..], old(to[..]), from, i, j)
  {
    i, j, overflow := 0, 0, false;
    AtTheEnds(multi, from, toEnd);
    StartsWithNothing(to[..], from);
    ghost var n := Taken(multi, from, toEnd);
    hide Taken, StillTaken, Progress;
    while i < |from| && !overflow
      invariant i <= |from| && j <= toEnd && (overflow ==> i < |from|)
      invariant Progress(to[..], old(to[..]), from, i, j)
      invariant n == if overflow then i else i + StillTaken(multi, from, i, toEnd - j)
      decreases |from| - i, !overflow
    {
      i, j, overflow := WriteOne(multi, to, old(to[..]), toEnd, from, i, j);
    }
    AtTheEnds(multi, from, toEnd - j);
  }

  /** The body of the loop. */
  method WriteOne(multi: bool, to: array<byte>, ghost was: bytes, toEnd: nat, from: bytes, i: nat, j: nat)
    returns (i': nat, j': nat, overflow: bool)
    requires i < |from| && j <= toEnd < to.Length && Progress(to[..], was, from, i, j)
    modifies to
    ensures i' <= |from| && j' <= toEnd && Progress(to[..], was, from, i', j')
    ensures i + StillTaken(multi, from, i, toEnd - j) == if overflow then i' else i' + StillTaken(multi, from, i', toEnd - j')
    ensures if overflow then i' == i else i < i'
  {
    hide StillTaken, Prefix, SameFrom, Progress, Put;
    var u, text;
    u, text, overflow := NextCharacter(multi, from, i, toEnd - j);
    if overflow {
      return i, j, true;
    }
    ghost var before := to[..];
    CopyBytes(to, j, text);
    OneUnitMore(to[..], before, was, from, i, j, u, text);
    i', j' := i + u, j + |text|;
  }

  /** `escape_quotes_for_drizzle` */
  method EscapeQuotes(multi: bool, to: array<byte>, toLength: nat, from: bytes) returns (r: nat)
    requires to.Length > RoomIn(toLength, from)
    modifies to
    ensures var n := Taken(multi, from, RoomIn(toLength, from));
      var text := Doubled(QUOTE, from[..n]);
      && |text| <= RoomIn(toLength, from) && Written(to[..], old(to[..]), text)
      && r == if n < |from| then UINT32_MAX else |text|
  {
    hide Taken, Doubled;
    var i, j, overflow := WriteCharacters(multi, to, RoomIn(toLength, from), from);
    ghost var text := to[..][..j];
    to[j] := 0;
    assert to[..][..j] == text;
    r := if overflow then UINT32_MAX else j;
  }
}
