/**
  How the dump program quotes data and names (client/drizzledump_data.cc), and
  that the server reads them back.  What the SQL client makes of them is in
  module `ClientText`.
 */
module DumpQuoting {
  import opened Rds
  import opened Scanner
  import opened ServerText

  lemma Assoc(a: bytes, b: bytes, c: bytes)
    ensures a + b + c == a + (b + c)
  {
  }

  // ---------------------------------------------------------------- string values

  function EscapeByte(c: byte): bytes {
    if c == 0 then [BACKSLASH, 48]
    else if c == 10 then [BACKSLASH, 110]
    else if c == 13 then [BACKSLASH, 114]
    else if c == BACKSLASH || c == QUOTE || c == DOUBLE_QUOTE then [BACKSLASH, c]
    else if c == 26 then [BACKSLASH, 90]
    else [c]
  }

  function Escape(s: bytes): bytes {
    if s == [] then [] else EscapeByte(s[0]) + Escape(s[1..])
  }

  /** The quoted value in a dump. */
  function Literal(s: bytes): bytes {
    [QUOTE] + Escape(s) + [QUOTE]
  }

  lemma EscapeStep(s: bytes, i: nat, before: bytes)
    requires i < |s|
    ensures before + Escape(s[i..]) == before + EscapeByte(s[i]) + Escape(s[i + 1..])
  {
    assert s[i..][1..] == s[i + 1..];
  }

  /** `DrizzleDumpData::escape` */
  method EscapeText(from: bytes) returns (output: bytes)
    ensures output == Escape(from)
  {
    assert Escape([]) == [];
    output := [];
    var i := 0;
    assert from[0..] == from;
    hide Escape;
    while i < |from|
      invariant i <= |from|
      invariant output + Escape(from[i..]) == Escape(from)
    {
      var c := from[i];
      EscapeStep(from, i, output);
      ghost var after := output + EscapeByte(c);
      if c < 0x80 {
        match c {
          case 0 => output := output + [BACKSLASH, 48];
          case 10 => output := output + [BACKSLASH, 110];
          case 13 => output := output + [BACKSLASH, 114];
          case 92 => output := output + [BACKSLASH, 92];
          case 39 => output := output + [BACKSLASH, 39];
          case 34 => output := output + [BACKSLASH, 34];
          case 26 => output := output + [BACKSLASH, 90];
          case _ => output := output + [c];
        }
      } else {
        output := output + [c];
      }
      assert output == after;
      i := i + 1;
    }
    assert from[i..] == [];
  }

  // ---------------------------------------------------------------- read back by the server

  lemma EscapedUnit(c: byte, after: bytes)
    ensures Body(false, QUOTE, EscapeByte(c) + after) == Plus(|EscapeByte(c)|, Body(false, QUOTE, after))
  {
    var e := EscapeByte(c);
    var q := e + after;
    assert q[|e|..] == after && q[0] == e[0] && MbLength(false, q) == 0;
    hide MbLength;
  }

  lemma {:induction false} EscapedBody(s: bytes, rest: bytes)
    requires rest == [] || rest[0] != QUOTE
    ensures Body(false, QUOTE, Escape(s) + ([QUOTE] + rest)) == Some(|Escape(s)|)
  {
    var tail := [QUOTE] + rest;
    if s == [] {
      assert Escape(s) + tail == tail;
    } else {
      EscapedBody(s[1..], rest);
      assert Escape(s) == EscapeByte(s[0]) + Escape(s[1..]);
      hide Escape, Body, EscapeByte;
      EscapedUnit(s[0], Escape(s[1..]) + tail);
      Assoc(EscapeByte(s[0]), Escape(s[1..]), tail);
    }
  }

  lemma MeansUnit(c: byte, after: bytes)
    ensures Unescaped(false, QUOTE, EscapeByte(c) + after) == [c] + Unescaped(false, QUOTE, after)
  {
    var e := EscapeByte(c);
    var q := e + after;
    assert q[|e|..] == after && q[0] == e[0] && MbLength(false, q) == 0;
    assert |e| == 2 ==> q[1] == e[1] && Meaning(e[1]) == [c];
    hide MbLength, Meaning;
  }

  lemma {:induction false} EscapedMeans(s: bytes)
    ensures Unescaped(false, QUOTE, Escape(s)) == s
  {
    if s != [] {
      EscapedMeans(s[1..]);
      MeansUnit(s[0], Escape(s[1..]));
      hide Unescaped;
    }
  }

  /** Law: the server reads every quoted value back, whatever its bytes, and stops at its closing quote. */
  lemma ServerReadsLiteral(multi: bool, s: bytes, rest: bytes)
    requires rest == [] || rest[0] != QUOTE
    ensures ReadText(multi, QUOTE, Escape(s) + [QUOTE] + rest) == Some((s, rest))
  {
    var q := Escape(s) + ([QUOTE] + rest);
    assert q == Escape(s) + [QUOTE] + rest;
    ReadsByBytes(multi, QUOTE, q);
    EscapedBody(s, rest);
    EscapedMeans(s);
    assert q[..|Escape(s)|] == Escape(s);
    assert q[|Escape(s)| + 1..] == rest;
  }

  // ---------------------------------------------------------------- binary values

  function HexDigit(n: nat): (c: byte)
    requires n < 16
    ensures UnhexDigit(c) == n
  {
    if n < 10 then 48 + n else 55 + n
  }

  function UnhexDigit(c: byte): nat {
    if 48 <= c <= 57 then c - 48 else if 65 <= c <= 70 then c - 55 else if 97 <= c <= 102 then c - 87 else 16
  }

  function HexPair(c: byte): (p: bytes)
    ensures |p| == 2 && UnhexDigit(p[0]) == c / 16 && UnhexDigit(p[1]) == c % 16
  {
    [HexDigit(c / 16), HexDigit(c % 16)]
  }

  function HexPairs(s: bytes): bytes {
    if s == [] then [] else HexPair(s[0]) + HexPairs(s[1..])
  }

  /** The binary value in a dump. */
  function HexLiteral(s: bytes): bytes {
    if s == [] then [QUOTE, QUOTE] else [48, 120] + HexPairs(s)
  }

  lemma HexParts(s: bytes)
    ensures HexLiteral(s) == (if |s| > 0 then [48, 120] else [QUOTE, QUOTE]) + HexPairs(s)
    ensures HexPairs([]) == []
  {
  }

  lemma HexStep(s: bytes, i: nat, before: bytes)
    requires i < |s|
    ensures before + HexPairs(s[i..]) == before + HexPair(s[i]) + HexPairs(s[i + 1..])
  {
    assert s[i..][1..] == s[i + 1..];
  }

  /** `DrizzleDumpData::convertHex` */
  method ConvertHex(from: bytes) returns (output: bytes)
    ensures output == HexLiteral(from)
  {
    output := if |from| > 0 then [48, 120] else [QUOTE, QUOTE];
    ghost var prefix := output;
    var i := 0;
    HexParts(from);
    assert from[0..] == from;
    hide HexPair, HexPairs, HexLiteral;
    while i < |from|
      invariant i <= |from|
      invariant output + HexPairs(from[i..]) == prefix + HexPairs(from)
    {
      HexStep(from, i, output);
      output := output + HexPair(from[i]);
      i := i + 1;
    }
    assert from[i..] == [];
  }

  /** The server's reading of hexadecimal digits: the bytes, and what follows the last digit. */
  function ReadHex(q: bytes): (r: (bytes, bytes))
    ensures |r.1| <= |q|
    decreases |q|
  {
    if |q| >= 2 && UnhexDigit(q[0]) < 16 && UnhexDigit(q[1]) < 16 then
      var r := ReadHex(q[2..]);
      ([16 * UnhexDigit(q[0]) + UnhexDigit(q[1])] + r.0, r.1)
    else ([], q)
  }

  lemma {:induction false} ServerReadsHex(s: bytes, rest: bytes)
    requires rest == [] || UnhexDigit(rest[0]) == 16
    ensures ReadHex(HexPairs(s) + rest) == (s, rest)
  {
    var q := HexPairs(s) + rest;
    if s == [] {
      assert q == rest;
    } else {
      ServerReadsHex(s[1..], rest);
      assert q[2..] == HexPairs(s[1..]) + rest;
      assert q[..2] == HexPair(s[0]);
      assert q[0] == HexPair(s[0])[0] && q[1] == HexPair(s[0])[1];
      assert 16 * (s[0] / 16) + s[0] % 16 == s[0];
      assert [s[0]] + s[1..] == s;
    }
  }

  // ---------------------------------------------------------------- names

  function Doubled(quote: byte, s: bytes): bytes {
    if s == [] then [] else (if s[0] == quote then [quote, quote] else [s[0]]) + Doubled(quote, s[1..])
  }

  /** The quoted name in a dump. */
  function QuotedName(name: bytes): bytes {
    [BACKTICK] + Doubled(BACKTICK, name) + [BACKTICK]
  }

  function Find(s: bytes, quote: byte, from: nat): (to: nat)
    requires from <= |s|
    ensures from <= to <= |s| && (to < |s| ==> s[to] == quote)
    ensures quote !in s[from..to]
    decreases |s| - from
  {
    if from == |s| || s[from] == quote then from else Find(s, quote, from + 1)
  }

  lemma {:induction false} DoubledSkip(quote: byte, s: bytes, k: nat)
    requires k <= |s| && quote !in s[..k]
    ensures Doubled(quote, s) == s[..k] + Doubled(quote, s[k..])
  {
    if k > 0 {
      assert s[0] == s[..k][0] && s[1..][..k - 1] == s[..k][1..];
      DoubledSkip(quote, s[1..], k - 1);
      assert s[1..][k - 1..] == s[k..];
    }
  }

  lemma DoubledStep(quote: byte, s: bytes, j: nat, k: nat)
    requires j <= k <= |s| && quote !in s[j..k]
    ensures s[..j] + Doubled(quote, s[j..]) == s[..k] + Doubled(quote, s[k..])
    ensures k < |s| && s[k] == quote ==> Doubled(quote, s[k..]) == [quote, quote] + Doubled(quote, s[k + 1..])
    ensures Doubled(quote, []) == []
  {
    if k < |s| {
      assert s[k..][1..] == s[k + 1..];
    }
    var tail := s[j..];
    assert Doubled(quote, []) == [] && (k < |s| && s[k] == quote ==> Doubled(quote, s[k..]) == [quote, quote] + Doubled(quote, s[k + 1..]));
    hide Doubled;
    assert tail[..k - j] == s[j..k] && tail[k - j..] == s[k..];
    DoubledSkip(quote, tail, k - j);
    Assoc(s[..j], tail[..k - j], Doubled(quote, s[k..]));
    assert s[..j] + tail[..k - j] == s[..k];
  }

  /** `cleanTableName`: the name is edited in place, one quote after the other. */
  method CleanTableName(name: bytes) returns (tableName: bytes)
    ensures tableName == Doubled(BACKTICK, name)
  {
    hide Doubled;
    tableName := name;
    var j := 0;
    assert name == name[0..];
    while true
      invariant j <= |tableName|
      invariant Doubled(BACKTICK, name) == tableName[..j] + Doubled(BACKTICK, tableName[j..])
      decreases |tableName| - j
    {
      var k := Find(tableName, BACKTICK, j);
      DoubledStep(BACKTICK, tableName, j, k);
      if k == |tableName| {
        assert tableName[k..] == [] && tableName[..k] == tableName;
        break;
      }
      ghost var start, tail := tableName[..k], tableName[k + 1..];
      tableName := tableName[..k] + [BACKTICK, BACKTICK] + tableName[k + 1..];
      j := k + 2;
      assert tableName[..j] == start + [BACKTICK, BACKTICK] && tableName[j..] == tail;
    }
  }

  /** Well-formed UTF-8 text without NUL. */
  predicate ReadableName(s: bytes)
    decreases |s|
  {
    s == [] || (ReadableStart(s) && ReadableName(s[CharLength(s[0])..]))
  }

  predicate ReadableStart(s: bytes)
    requires s != []
  {
    1 <= CharLength(s[0]) <= |s| && s[0] != 0 && forall i :: 1 <= i < CharLength(s[0]) ==> Continues(s[i])
  }

  lemma DoubledCharacter(s: bytes)
    requires s != [] && ReadableStart(s)
    ensures var k := CharLength(s[0]); Doubled(BACKTICK, s) == (if s[0] == BACKTICK then [BACKTICK, BACKTICK] else s[..k]) + Doubled(BACKTICK, s[k..])
  {
    if s[0] != BACKTICK {
      DoubledSkip(BACKTICK, s, CharLength(s[0]));
    }
  }

  lemma {:induction false} HalvedSkip(quote: byte, s: bytes, k: nat)
    requires k <= |s| && quote !in s[..k]
    ensures Halved(quote, s) == s[..k] + Halved(quote, s[k..])
  {
    if k > 0 {
      assert s[0] == s[..k][0] && s[1..][..k - 1] == s[..k][1..];
      HalvedSkip(quote, s[1..], k - 1);
      assert s[1..][k - 1..] == s[k..];
    }
  }

  lemma {:induction false} HalvingUndoesDoubling(quote: byte, s: bytes)
    ensures Halved(quote, Doubled(quote, s)) == s
  {
    if s != [] {
      HalvingUndoesDoubling(quote, s[1..]);
      var d := Doubled(quote, s);
      assert d[if s[0] == quote then 2 else 1..] == Doubled(quote, s[1..]);
    }
  }

  lemma NameEndUnit(s: bytes, after: bytes)
    requires s != [] && ReadableStart(s)
    ensures var d := if s[0] == BACKTICK then [BACKTICK, BACKTICK] else s[..CharLength(s[0])];
      NameEnd(BACKTICK, d + after) == Plus(|d|, NameEnd(BACKTICK, after))
  {
    var d := if s[0] == BACKTICK then [BACKTICK, BACKTICK] else s[..CharLength(s[0])];
    var q := d + after;
    assert q[|d|..] == after && q[0] == s[0];
  }

  lemma {:induction false} DoubledNameEnd(s: bytes, rest: bytes)
    requires ReadableName(s) && (rest == [] || rest[0] != BACKTICK)
    ensures NameEnd(BACKTICK, Doubled(BACKTICK, s) + ([BACKTICK] + rest)) == Some(|Doubled(BACKTICK, s)|)
    decreases |s|
  {
    var tail := [BACKTICK] + rest;
    var q := Doubled(BACKTICK, s) + tail;
    if s == [] {
      assert q == tail;
    } else {
      var k := CharLength(s[0]);
      DoubledCharacter(s);
      DoubledNameEnd(s[k..], rest);
      var d := if s[0] == BACKTICK then [BACKTICK, BACKTICK] else s[..k];
      hide Doubled, NameEnd, CharLength, ReadableName;
      Assoc(d, Doubled(BACKTICK, s[k..]), tail);
      NameEndUnit(s, Doubled(BACKTICK, s[k..]) + tail);
    }
  }

  /** Law: the server reads a quoted name back. */
  lemma ServerReadsName(s: bytes, rest: bytes)
    requires ReadableName(s) && (rest == [] || rest[0] != BACKTICK)
    ensures ReadName(BACKTICK, Doubled(BACKTICK, s) + [BACKTICK] + rest) == Some((s, rest))
  {
    var d := Doubled(BACKTICK, s);
    var q := d + ([BACKTICK] + rest);
    DoubledNameEnd(s, rest);
    HalvingUndoesDoubling(BACKTICK, s);
    hide Doubled, NameEnd, Halved, ReadableName;
    Assoc(d, [BACKTICK], rest);
    assert q[..|d|] == d && q[|d| + 1..] == rest;
  }
}
