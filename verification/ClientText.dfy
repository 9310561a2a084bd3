/**
  What the SQL client's line scanner makes of the quoted values and names of a
  dump: when it takes them for one literal, copies them as they stand and goes on
  outside quotes.
 */
module ClientText {
  import opened Rds
  import opened Scanner
  import opened ServerText
  import opened DumpQuoting

  /** The scan with more text kept. */
  function Kept(s: Scan, text: bytes): Scan {
    s.(pending := s.pending + text)
  }

  lemma KeptTwice(s: Scan, a: bytes, b: bytes)
    ensures Kept(Kept(s, a), b) == Kept(s, a + b)
  {
    Assoc(s.pending, a, b);
  }

  lemma KeptNothing(s: Scan)
    ensures Kept(s, []) == s
  {
    assert s.pending + [] == s.pending;
  }

  /** Outside quotes and comments. */
  predicate AtTop(s: Scan) {
    s.inString == 0 && !s.mlComment
  }

  /** The space that the scanner owes for a comment it removed. */
  function Owed(s: Scan): bytes {
    if s.needSpace then [SPACE] else []
  }

  predicate IsQuote(c: byte) {
    c == QUOTE || c == DOUBLE_QUOTE || c == BACKTICK
  }

  // ---------------------------------------------------------------- inside a literal

  /** How much the scanner takes in one turn inside a literal. */
  function Unit(escapes: bool, q: bytes): nat
    requires q != []
  {
    if q[0] >= 0x80 && SequenceLength(q[0]) != 0 then SequenceLength(q[0])
    else if escapes && q[0] == BACKSLASH then 2
    else 1
  }

  lemma InsideTurn(conf: Config, st: Scan, quote: byte, q: bytes)
    requires conf.delimiter != [] && InLiteral(conf, st, quote) && q != [] && q[0] != quote
    ensures var u := Unit(!conf.noBackslashEscapes, q);
      if u <= |q| then Turn(conf, st, q) == Go(Kept(st, q[..u]), u) else !Turn(conf, st, q).Go?
  {
    var u := Unit(!conf.noBackslashEscapes, q);
    if q[0] >= 0x80 && SequenceLength(q[0]) != 0 {
      if u <= |q| {
        CharacterTurn(conf, st, quote, q, u);
      }
    } else if q[0] == BACKSLASH && !conf.noBackslashEscapes {
      if u <= |q| {
        PairTurn(conf, st, quote, q);
      }
    } else {
      InertTurn(conf, st, quote, q);
      assert q[..1] == [q[0]];
    }
  }

  lemma InsideScan(conf: Config, st: Scan, quote: byte, unit: bytes, after: bytes)
    requires conf.delimiter != [] && InLiteral(conf, st, quote) && unit != [] && unit[0] != quote
    requires Unit(!conf.noBackslashEscapes, unit) == |unit|
    ensures Scanned(conf, st, unit + after) == Scanned(conf, Kept(st, unit), after)
  {
    var q := unit + after;
    assert q[0] == unit[0] && q[..|unit|] == unit && q[|unit|..] == after;
    hide Scanned, Turn;
    InsideTurn(conf, st, quote, q);
    ScannedTurn(conf, st, q, Kept(st, unit), |unit|);
  }

  /** Taken unit by unit, the text ends with a unit, and no unit is the quote. */
  predicate Walk(escapes: bool, quote: byte, e: bytes)
    decreases |e|
  {
    e == [] || (var u := Unit(escapes, e); e[0] != quote && u <= |e| && Walk(escapes, quote, e[u..]))
  }

  /** Every turn on `q`, followed by `rest`, starts inside the literal, and the last one is on the last byte of `q`. */
  predicate ClosesAtLast(conf: Config, st: Scan, quote: byte, q: bytes, rest: bytes)
    requires conf.delimiter != [] && q != []
    decreases |q|
  {
    st.inString == quote && q[0] != 0 && (|q| == 1 ||
      var line := UpToNul(q + rest);
      var m := Turn(conf, st, line);
      TurnAdvances(conf, st, line);
      m.Go? && m.k < |q| && ClosesAtLast(conf, m.s, quote, q[m.k..], rest))
  }

  lemma NulBehind(e: bytes, u: nat)
    requires u <= |e|
    ensures 0 in e <==> 0 in e[..u] || 0 in e[u..]
  {
    assert e == e[..u] + e[u..];
  }

  /** Law: the scanner stays inside the literal up to its last quote exactly if the text holds no NUL and the walk over it succeeds. */
  lemma {:induction false} ClosesExactly(conf: Config, st: Scan, quote: byte, e: bytes, rest: bytes)
    requires conf.delimiter != [] && InLiteral(conf, st, quote)
    ensures ClosesAtLast(conf, st, quote, e + [quote], rest) <==> 0 !in e && Walk(!conf.noBackslashEscapes, quote, e)
    decreases |e|
  {
    var q := e + [quote];
    if e == [] {
      assert q == [quote];
    } else if e[0] != 0 {
      var full, line, u := q + rest, UpToNul(q + rest), Unit(!conf.noBackslashEscapes, e);
      assert full[0] == e[0] && line != [] && line[0] == e[0] && Unit(!conf.noBackslashEscapes, line) == u;
      hide UpToNul;
      if e[0] == quote {
        ClosingTurn(conf, st, quote, line);
        hide Turn;
      } else {
        InsideTurn(conf, st, quote, line);
        hide Turn, Unit;
        if u <= |e| {
          assert q[u..] == e[u..] + [quote];
          NulBehind(e, u);
          if u <= |line| {
            assert e[..u] == line[..u];
            ClosesExactly(conf, Kept(st, line[..u]), quote, e[u..], rest);
          } else {
            assert e[|line|] == full[|line|] == 0;
          }
        }
      }
    }
  }

  lemma {:induction false} WalkedIsCopied(conf: Config, st: Scan, quote: byte, e: bytes, rest: bytes)
    requires conf.delimiter != [] && InLiteral(conf, st, quote) && Walk(!conf.noBackslashEscapes, quote, e)
    ensures Scanned(conf, st, e + rest) == Scanned(conf, Kept(st, e), rest)
    decreases |e|
  {
    hide Scanned;
    if e == [] {
      KeptNothing(st);
      assert e + rest == rest;
    } else {
      var u := Unit(!conf.noBackslashEscapes, e);
      var unit, more := e[..u], e[u..];
      assert e == unit + more;
      hide Walk;
      Assoc(unit, more, rest);
      InsideScan(conf, st, quote, unit, more + rest);
      WalkedIsCopied(conf, Kept(st, unit), quote, more, rest);
      KeptTwice(st, unit, more);
    }
  }

  // ---------------------------------------------------------------- values

  /** The client takes the quoted value for one literal. */
  predicate Unbroken(escapes: bool, s: bytes) {
    Walk(escapes, QUOTE, Escape(s))
  }

  /** Behind the opening quote. */
  function Begun(s0: Scan, quote: byte): Scan {
    Kept(s0, Owed(s0) + [quote]).(inString := quote, needSpace := false)
  }

  lemma OpeningScan(conf: Config, s0: Scan, quote: byte, after: bytes)
    requires conf.delimiter != [] && conf.delimiter[0] != quote && IsQuote(quote) && AtTop(s0)
    ensures Turn(conf, s0, [quote] + after) == Go(Begun(s0, quote), 1)
    ensures Scanned(conf, s0, [quote] + after) == Scanned(conf, Begun(s0, quote), after)
  {
    var text := [quote] + after;
    Assoc(s0.pending, Owed(s0), [quote]);
    OpeningTurn(conf, s0, quote, text);
    hide Scanned, Turn;
    ScannedTurn(conf, s0, text, Begun(s0, quote), 1);
    assert text[1..] == after;
  }

  lemma ClosingScan(conf: Config, st: Scan, quote: byte, after: bytes)
    requires conf.delimiter != [] && InLiteral(conf, st, quote)
    ensures Scanned(conf, st, [quote] + after) == Scanned(conf, Kept(st, [quote]).(inString := 0), after)
  {
    var text := [quote] + after;
    ClosingTurn(conf, st, quote, text);
    hide Scanned, Turn;
    ScannedTurn(conf, st, text, Kept(st, [quote]).(inString := 0), 1);
    assert text[1..] == after;
  }

  lemma {:induction false} EscapedHasNoNul(s: bytes)
    ensures 0 !in Escape(s)
  {
    if s != [] {
      EscapedHasNoNul(s[1..]);
      assert 0 !in EscapeByte(s[0]);
    }
  }

  lemma LiteralHasNoNul(s: bytes)
    ensures 0 !in Literal(s)
  {
    EscapedHasNoNul(s);
  }

  /** Law: inside a quoted value the client is inside the literal at every turn up to the last quote, exactly if the value is unbroken. */
  lemma LiteralClosesExactly(conf: Config, s0: Scan, s: bytes, rest: bytes)
    requires conf.delimiter != [] && conf.delimiter[0] != QUOTE && AtTop(s0)
    ensures Turn(conf, s0, Literal(s) + UpToNul(rest)) == Go(Begun(s0, QUOTE), 1)
    ensures UpToNul(Literal(s) + rest) == Literal(s) + UpToNul(rest)
    ensures ClosesAtLast(conf, Begun(s0, QUOTE), QUOTE, Literal(s)[1..], rest) <==> Unbroken(!conf.noBackslashEscapes, s)
  {
    hide Turn, Scanned, Escape, UpToNul, Walk, ClosesAtLast;
    var e, line := Escape(s), UpToNul(rest);
    EscapedHasNoNul(s);
    UpToNulBoth(Literal(s), rest);
    assert Literal(s)[1..] == e + [QUOTE];
    assert Literal(s) + line == [QUOTE] + (e + [QUOTE] + line);
    OpeningScan(conf, s0, QUOTE, e + [QUOTE] + line);
    ClosesExactly(conf, Begun(s0, QUOTE), QUOTE, e, rest);
  }

  lemma Copied(conf: Config, s0: Scan, quote: byte, body: bytes, rest: bytes)
    requires conf.delimiter != [] && conf.delimiter[0] != quote && IsQuote(quote) && AtTop(s0)
    requires Scanned(conf, Begun(s0, quote), body + ([quote] + rest)) == Scanned(conf, Kept(Begun(s0, quote), body), [quote] + rest)
    ensures Scanned(conf, s0, [quote] + body + [quote] + rest)
         == Scanned(conf, Kept(s0, Owed(s0) + ([quote] + body + [quote])).(needSpace := false), rest)
  {
    hide Scanned;
    var tail, begun := [quote] + rest, Begun(s0, quote);
    assert [quote] + body + [quote] + rest == [quote] + (body + tail);
    OpeningScan(conf, s0, quote, body + tail);
    ClosingScan(conf, Kept(begun, body), quote, rest);
    assert s0.pending + (Owed(s0) + [quote]) + body + [quote] == s0.pending + (Owed(s0) + ([quote] + body + [quote]));
  }

  /** Law: an unbroken quoted value is copied as it stands, fires nothing, and ends outside quotes. */
  lemma LiteralSurvives(conf: Config, s0: Scan, s: bytes, rest: bytes)
    requires conf.delimiter != [] && conf.delimiter[0] != QUOTE && AtTop(s0) && Unbroken(!conf.noBackslashEscapes, s)
    ensures Scanned(conf, s0, Literal(s) + rest) == Scanned(conf, Kept(s0, Owed(s0) + Literal(s)).(needSpace := false), rest)
  {
    hide Scanned, Escape, Walk;
    WalkedIsCopied(conf, Begun(s0, QUOTE), QUOTE, Escape(s), [QUOTE] + rest);
    Copied(conf, s0, QUOTE, Escape(s), rest);
  }

  /** Every leading byte is followed by its continuation bytes, as in well-formed UTF-8. */
  predicate WholeCharacters(s: bytes) {
    forall p :: 0 <= p < |s| ==> WholeAt(s, p)
  }

  predicate WholeAt(s: bytes, p: nat)
    requires p < |s|
  {
    p + SequenceLength(s[p]) <= |s| && forall i :: p < i < p + SequenceLength(s[p]) ==> s[i] >= 0x80
  }

  lemma WholeTail(s: bytes, k: nat)
    requires k <= |s| && WholeCharacters(s)
    ensures WholeCharacters(s[k..])
  {
    forall p | 0 <= p < |s| - k ensures WholeAt(s[k..], p) {
      assert WholeAt(s, p + k);
    }
  }

  lemma {:induction false} EscapeKeepsHigh(s: bytes, k: nat)
    requires k <= |s| && forall i :: 0 <= i < k ==> s[i] >= 0x80
    ensures Escape(s) == s[..k] + Escape(s[k..])
  {
    if k > 0 {
      assert Escape(s) == [s[0]] + Escape(s[1..]);
      hide Escape;
      EscapeKeepsHigh(s[1..], k - 1);
      assert s[1..][k - 1..] == s[k..];
      Assoc([s[0]], s[1..][..k - 1], Escape(s[k..]));
      assert [s[0]] + s[1..][..k - 1] == s[..k];
    } else {
      assert s[0..] == s && s[..0] + Escape(s) == Escape(s);
    }
  }

  lemma WalkUnit(unit: bytes, more: bytes)
    requires unit != [] && unit[0] != QUOTE && Unit(true, unit) == |unit| && Walk(true, QUOTE, more)
    ensures Walk(true, QUOTE, unit + more)
  {
    assert (unit + more)[|unit|..] == more && (unit + more)[0] == unit[0];
  }

  /** Law: values of whole characters are unbroken, so the promise for well-formed UTF-8 is kept. */
  lemma {:induction false} WholeCharactersAreUnbroken(s: bytes)
    requires WholeCharacters(s)
    ensures Unbroken(true, s)
    decreases |s|
  {
    if s != [] {
      assert WholeAt(s, 0);
      var k := SequenceLength(s[0]);
      if s[0] >= 0x80 && k != 0 {
        assert forall i :: 0 <= i < k ==> s[i] >= 0x80;
        EscapeKeepsHigh(s, k);
        WholeTail(s, k);
        hide WholeCharacters, Escape;
        WholeCharactersAreUnbroken(s[k..]);
        WalkUnit(s[..k], Escape(s[k..]));
      } else {
        var e := EscapeByte(s[0]);
        assert Escape(s) == e + Escape(s[1..]);
        assert Unit(true, e) == |e| && e[0] != QUOTE;
        WholeTail(s, 1);
        hide WholeCharacters, Escape;
        WholeCharactersAreUnbroken(s[1..]);
        WalkUnit(e, Escape(s[1..]));
      }
    }
  }

  /** A lone leading byte before a quote hides the backslash from the client: the literal ends too early. */
  lemma MalformedLiteralBreaks(conf: Config, s0: Scan)
    requires conf.delimiter != [] && conf.delimiter[0] != QUOTE && !conf.noBackslashEscapes && AtTop(s0)
    ensures !Unbroken(true, [0xC3, QUOTE])
    ensures var m := Scanned(conf, s0, Literal([0xC3, QUOTE])); m.Break? && m.s.inString == QUOTE
  {
    var s: bytes, e: bytes := [0xC3, QUOTE], [0xC3, BACKSLASH, QUOTE];
    assert Escape([]) == [] && [QUOTE][1..] == [] && s[1..] == [QUOTE];
    assert Escape([QUOTE]) == [BACKSLASH, QUOTE] && Escape(s) == e;
    assert e[2..] == [QUOTE] && !Walk(true, QUOTE, e);
    hide Scanned, Turn, Escape, Walk;
    var begun := Begun(s0, QUOTE);
    var skipped := Kept(begun, [0xC3, BACKSLASH]);
    var closed := Kept(skipped, [QUOTE]).(inString := 0);
    assert Literal(s) == [QUOTE] + ([0xC3, BACKSLASH] + ([QUOTE] + [QUOTE]));
    OpeningScan(conf, s0, QUOTE, [0xC3, BACKSLASH] + ([QUOTE] + [QUOTE]));
    InsideScan(conf, begun, QUOTE, [0xC3, BACKSLASH], [QUOTE] + [QUOTE]);
    ClosingScan(conf, skipped, QUOTE, [QUOTE]);
    assert [QUOTE] == [QUOTE] + [];
    OpeningScan(conf, closed, QUOTE, []);
    ScannedNothing(conf, Begun(closed, QUOTE));
  }

  // ---------------------------------------------------------------- names

  /** Read in pairs from left to right, no backslash is followed by a backtick or ends the name. */
  predicate SafeBackslashes(s: bytes)
    decreases |s|
  {
    s == [] ||
    if s[0] == BACKSLASH then |s| >= 2 && s[1] != BACKTICK && SafeBackslashes(s[2..]) else SafeBackslashes(s[1..])
  }

  lemma {:induction false} SafeTail(s: bytes, k: nat)
    requires k <= |s| && forall i :: 0 <= i < k ==> s[i] >= 0x80
    ensures SafeBackslashes(s) == SafeBackslashes(s[k..])
  {
    if k > 0 {
      SafeTail(s[1..], k - 1);
      assert s[1..][k - 1..] == s[k..];
    }
  }

  /** What one character, or a backslash and the byte behind it, becomes in a quoted name. */
  lemma DoubledUnit(escapes: bool, s: bytes)
    requires s != [] && s[0] != BACKTICK && Unit(escapes, s) <= |s| && (escapes && s[0] == BACKSLASH ==> s[1] != BACKTICK)
    requires WholeCharacters(s)
    ensures var u := Unit(escapes, s); Doubled(BACKTICK, s) == s[..u] + Doubled(BACKTICK, s[u..])
  {
    var u := Unit(escapes, s);
    assert WholeAt(s, 0);
    assert BACKTICK !in s[..u];
    hide Unit;
    DoubledSkip(BACKTICK, s, u);
  }

  lemma UnitFits(escapes: bool, s: bytes)
    requires s != [] && WholeCharacters(s) && !(escapes && s == [BACKSLASH])
    ensures Unit(escapes, s) <= |s|
    ensures !(escapes && s[0] == BACKSLASH) ==> forall i :: 1 <= i < Unit(escapes, s) ==> s[i] >= 0x80
  {
    assert WholeAt(s, 0);
    if |s| == 1 {
      assert s == [s[0]];
    }
  }

  /** A doubled backtick closes the name and opens it again. */
  lemma DoubledBacktick(conf: Config, st: Scan, after: bytes)
    requires conf.delimiter != [] && conf.delimiter[0] != BACKTICK && InLiteral(conf, st, BACKTICK)
    ensures Scanned(conf, st, [BACKTICK, BACKTICK] + after) == Scanned(conf, Kept(st, [BACKTICK, BACKTICK]), after)
  {
    hide Scanned;
    var closed := Kept(st, [BACKTICK]).(inString := 0);
    assert [BACKTICK, BACKTICK] + after == [BACKTICK] + ([BACKTICK] + after);
    ClosingScan(conf, st, BACKTICK, [BACKTICK] + after);
    OpeningScan(conf, closed, BACKTICK, after);
    assert st.pending + [BACKTICK] + ([] + [BACKTICK]) == st.pending + [BACKTICK, BACKTICK];
  }

  lemma {:induction false} SafeNameIsCopied(conf: Config, st: Scan, s: bytes, rest: bytes)
    requires conf.delimiter != [] && conf.delimiter[0] != BACKTICK && InLiteral(conf, st, BACKTICK)
    requires WholeCharacters(s) && (conf.noBackslashEscapes || SafeBackslashes(s))
    ensures Scanned(conf, st, Doubled(BACKTICK, s) + rest) == Scanned(conf, Kept(st, Doubled(BACKTICK, s)), rest)
    decreases |s|
  {
    hide Scanned;
    if s == [] {
      KeptNothing(st);
      assert Doubled(BACKTICK, s) + rest == rest;
    } else {
      var escapes := !conf.noBackslashEscapes;
      var u := Unit(escapes, s);
      UnitFits(escapes, s);
      WholeTail(s, u);
      if u > 1 && !(escapes && s[0] == BACKSLASH) {
        SafeTail(s, u);
      }
      if s[0] != BACKTICK {
        DoubledUnit(escapes, s);
      }
      var d, more := if s[0] == BACKTICK then [BACKTICK, BACKTICK] else s[..u], Doubled(BACKTICK, s[u..]);
      assert Doubled(BACKTICK, s) == d + more;
      SafeNameIsCopied(conf, Kept(st, d), s[u..], rest);
      assert s[0] != BACKTICK ==> Unit(escapes, d) == |d|;
      hide Doubled, WholeCharacters, SafeBackslashes, Unit;
      if s[0] == BACKTICK {
        DoubledBacktick(conf, st, more + rest);
      } else {
        InsideScan(conf, st, BACKTICK, d, more + rest);
      }
      Assoc(d, more, rest);
      KeptTwice(st, d, more);
    }
  }

  /** The state behind a quoted name that was copied. */
  function BehindName(s0: Scan, name: bytes): Scan {
    Kept(s0, Owed(s0) + QuotedName(name)).(needSpace := false)
  }

  /** The client copies the quoted name as it stands, fires nothing and ends outside quotes, whatever follows. */
  ghost predicate NameIsCopied(conf: Config, s0: Scan, name: bytes)
    requires conf.delimiter != []
  {
    forall rest :: Scanned(conf, s0, UpToNul(QuotedName(name) + rest)) == Scanned(conf, BehindName(s0, name), UpToNul(rest))
  }

  lemma SafeNameScan(conf: Config, s0: Scan, name: bytes, rest: bytes)
    requires conf.delimiter != [] && conf.delimiter[0] != BACKTICK && AtTop(s0)
    requires WholeCharacters(name) && (conf.noBackslashEscapes || SafeBackslashes(name))
    ensures Scanned(conf, s0, QuotedName(name) + rest) == Scanned(conf, BehindName(s0, name), rest)
  {
    hide Scanned, Doubled, WholeCharacters, SafeBackslashes;
    SafeNameIsCopied(conf, Begun(s0, BACKTICK), name, [BACKTICK] + rest);
    Copied(conf, s0, BACKTICK, Doubled(BACKTICK, name), rest);
  }

  lemma {:induction false} DoubledNul(s: bytes)
    ensures 0 in Doubled(BACKTICK, s) <==> 0 in s
  {
    if s != [] {
      DoubledNul(s[1..]);
      assert s == [s[0]] + s[1..];
    }
  }

  lemma NameSurvives(conf: Config, s0: Scan, name: bytes)
    requires conf.delimiter != [] && conf.delimiter[0] != BACKTICK && AtTop(s0)
    requires WholeCharacters(name) && 0 !in name && (conf.noBackslashEscapes || SafeBackslashes(name))
    ensures NameIsCopied(conf, s0, name)
  {
    DoubledNul(name);
    assert 0 !in QuotedName(name);
    hide Scanned, UpToNul, QuotedName, WholeCharacters, SafeBackslashes, BehindName;
    forall rest ensures Scanned(conf, s0, UpToNul(QuotedName(name) + rest)) == Scanned(conf, BehindName(s0, name), UpToNul(rest)) {
      UpToNulBoth(QuotedName(name), rest);
      SafeNameScan(conf, s0, name, UpToNul(rest));
    }
  }

  // ---------------------------------------------------------------- a name with a NUL

  /** From position `n` on, the text holds no NUL. */
  predicate NoNulFrom(p: bytes, n: nat) {
    forall i :: n <= i < |p| ==> p[i] != 0
  }

  lemma NoNulBoth(p: bytes, q: bytes, n: nat)
    requires NoNulFrom(p, n) && 0 !in q
    ensures NoNulFrom(p + q, n)
  {
  }

  lemma PlainAddsNoNul(conf: Config, s: Scan, rest: bytes, n: nat)
    requires rest != [] && 0 !in rest && NoNulFrom(s.pending, n)
    ensures NoNulFrom(Plain(conf, s, rest).pending, n)
  {
    var space := if s.needSpace && !IsSpace(rest[0]) then [SPACE] else [];
    NoNulBoth(s.pending, space, n);
    NoNulBoth(s.pending + space, [rest[0]], n);
    hide NoNulFrom;
  }

  lemma BackslashAddsNoNul(conf: Config, s: Scan, rest: bytes, n: nat)
    requires rest != [] && 0 !in rest && NoNulFrom(s.pending, n)
    ensures NoNulFrom(Backslash(conf, s, rest).s.pending, n)
  {
    if |rest| > 1 {
      NoNulBoth(s.pending, [BACKSLASH, rest[1]], n);
    }
    assert NoNulFrom([], n);
    hide NoNulFrom, AfterParameters;
  }

  lemma MultiByteAddsNoNul(conf: Config, s: Scan, rest: bytes, n: nat)
    requires rest != [] && 0 !in rest && NoNulFrom(s.pending, n) && !MultiByte(conf, s, rest).Overrun?
    ensures NoNulFrom(MultiByte(conf, s, rest).s.pending, n)
  {
    NoNulBoth(s.pending, rest[..SequenceLength(rest[0])], n);
    hide NoNulFrom;
  }

  /** The other branches leave nothing pending. */
  lemma NothingPending(conf: Config, s: Scan, rest: bytes)
    ensures LineComment(conf, s, rest).s.pending == OpenComment(conf, s).pending == CloseComment(conf, s).pending == []
    ensures StartsWith(rest, conf.delimiter) ==> Delimiter(conf, s, rest).s.pending == []
  {
    hide StartsLineComment, Spaces;
  }

  lemma TurnAddsNoNul(conf: Config, s: Scan, rest: bytes, n: nat)
    requires rest != [] && 0 !in rest && NoNulFrom(s.pending, n)
    ensures var m := Turn(conf, s, rest); !m.Overrun? ==> NoNulFrom(m.s.pending, n)
  {
    PlainAddsNoNul(conf, s, rest, n);
    BackslashAddsNoNul(conf, s, rest, n);
    NothingPending(conf, s, rest);
    assert NoNulFrom([], n);
    if !MultiByte(conf, s, rest).Overrun? {
      MultiByteAddsNoNul(conf, s, rest, n);
    }
    hide Plain, Backslash, MultiByte, Delimiter, LineComment, OpenComment, CloseComment, StartsWith, StartsLineComment, NoNulFrom;
  }

  lemma {:induction false} ScannedAddsNoNul(conf: Config, s: Scan, rest: bytes, n: nat)
    requires conf.delimiter != [] && 0 !in rest && NoNulFrom(s.pending, n)
    ensures var m := Scanned(conf, s, rest); !m.Overrun? ==> NoNulFrom(m.s.pending, n)
    decreases |rest|
  {
    if rest != [] {
      TurnAdvances(conf, s, rest);
      TurnAddsNoNul(conf, s, rest, n);
      hide Turn, NoNulFrom;
      var m := Turn(conf, s, rest);
      if m.Go? {
        ScannedAddsNoNul(conf, m.s, rest[m.k..], n);
      }
    }
  }

  /** A NUL ends the line, so a name that holds one is not copied. */
  lemma NulBreaksName(conf: Config, s0: Scan, name: bytes)
    requires conf.delimiter != [] && 0 in name
    ensures !NameIsCopied(conf, s0, name)
  {
    DoubledNul(name);
    hide Scanned, UpToNul, Doubled;
    var line, n, behind := UpToNul(QuotedName(name) + []), |s0.pending|, BehindName(s0, name);
    ScannedAddsNoNul(conf, s0, line, n);
    assert UpToNul([]) == [];
    ScannedNothing(conf, behind);
    var k :| 0 <= k < |Doubled(BACKTICK, name)| && Doubled(BACKTICK, name)[k] == 0;
    assert behind.pending[n + |Owed(s0)| + 1 + k] == 0;
    assert Scanned(conf, s0, line) != Scanned(conf, behind, UpToNul([]));
  }

  // ---------------------------------------------------------------- a broken name is never mended

  /** More events, or the same and at least as much in the statement buffer. */
  predicate AtLeast(s: Scan, s': Scan) {
    |s'.events| > |s.events| || (s'.events == s.events && |s'.buffer| >= |s.buffer|)
  }

  predicate Grown(s: Scan, s': Scan) {
    |s'.events| > |s.events| || (s'.events == s.events && |s'.buffer| > |s.buffer|)
  }

  /** The line ended outside quotes with something kept, and neither events nor buffer have changed. */
  predicate Intact(s: Scan, m: Move) {
    m.Break? && m.s.inString == 0 && m.s.pending != [] && m.s.events == s.events && m.s.buffer == s.buffer
  }

  lemma FlushGrows(conf: Config, s: Scan, rest: bytes)
    ensures AtLeast(s, LineComment(conf, s, rest).s)
    ensures AtLeast(s, OpenComment(conf, s)) && AtLeast(s, CloseComment(conf, s))
  {
  }

  lemma DelimiterGrows(conf: Config, s: Scan, rest: bytes)
    requires StartsWith(rest, conf.delimiter)
    ensures AtLeast(s, Delimiter(conf, s, rest).s)
  {
    hide StartsWith, StartsLineComment, Spaces;
  }

  lemma KeepingGrows(conf: Config, s: Scan, rest: bytes)
    requires rest != []
    ensures AtLeast(s, Backslash(conf, s, rest).s) && AtLeast(s, Plain(conf, s, rest)) && AtLeast(s, s)
    ensures !MultiByte(conf, s, rest).Overrun? ==> AtLeast(s, MultiByte(conf, s, rest).s)
  {
    hide AfterParameters, SequenceLength;
  }

  lemma TurnGrows(conf: Config, s: Scan, rest: bytes)
    requires rest != []
    ensures var m := Turn(conf, s, rest); !m.Overrun? ==> AtLeast(s, m.s)
  {
    FlushGrows(conf, s, rest);
    KeepingGrows(conf, s, rest);
    if StartsWith(rest, conf.delimiter) {
      DelimiterGrows(conf, s, rest);
    }
    hide Plain, Backslash, MultiByte, Delimiter, LineComment, OpenComment, CloseComment, StartsWith, StartsLineComment, AtLeast;
  }

  lemma {:induction false} ScannedGrows(conf: Config, s: Scan, rest: bytes)
    requires conf.delimiter != []
    ensures var m := Scanned(conf, s, rest); !m.Overrun? ==> AtLeast(s, m.s)
    decreases |rest|
  {
    if rest != [] {
      TurnAdvances(conf, s, rest);
      TurnGrows(conf, s, rest);
      hide Turn;
      var m := Turn(conf, s, rest);
      if m.Go? {
        ScannedGrows(conf, m.s, rest[m.k..]);
      }
    }
  }

  lemma GrownIsNotIntact(conf: Config, s: Scan, s': Scan, rest: bytes)
    requires conf.delimiter != [] && Grown(s, s')
    ensures !Intact(s, Scanned(conf, s', rest))
  {
    ScannedGrows(conf, s', rest);
  }

  /** Not in a quoted name and not in a comment, with something kept. */
  predicate Outside(s: Scan) {
    (s.inString == 0 || s.inString == QUOTE || s.inString == DOUBLE_QUOTE) && !s.mlComment && !s.needSpace && s.pending != []
  }

  predicate SameSoFar(s: Scan, s': Scan) {
    s'.events == s.events && s'.buffer == s.buffer
  }

  /** What one turn outside a name can do: spoil the outcome for good, or take one unit and stay outside. */
  lemma OutsideTurn(conf: Config, s: Scan, q: bytes)
    requires conf.delimiter != [] && !conf.noBackslashEscapes && Outside(s)
    requires q != [] && q[0] != BACKTICK && Unit(true, q) <= |q|
    ensures var m := Turn(conf, s, q);
      if m.Go? then
        || Grown(s, m.s)
        || (Outside(m.s) && SameSoFar(s, m.s) && m.k == Unit(true, q)
            && (q[0] == BACKSLASH ==> m.s.inString == s.inString && (s.inString == 0 ==> q[1] == UPPER_N)))
      else !Intact(s, m)
  {
  }

  /** Outside a name, a doubled backtick is copied: it opens and closes an empty name, or is inside a string. */
  lemma DoubledOutside(conf: Config, s: Scan, after: bytes)
    requires conf.delimiter != [] && conf.delimiter[0] != BACKTICK && Outside(s)
    ensures Scanned(conf, s, [BACKTICK, BACKTICK] + after) == Scanned(conf, Kept(s, [BACKTICK, BACKTICK]), after)
  {
    hide Scanned;
    assert [BACKTICK, BACKTICK] + after == [BACKTICK] + ([BACKTICK] + after);
    assert [BACKTICK] + [BACKTICK] == [BACKTICK, BACKTICK];
    if s.inString == 0 {
      OpeningScan(conf, s, BACKTICK, [BACKTICK] + after);
      ClosingScan(conf, Begun(s, BACKTICK), BACKTICK, after);
      assert [] + [BACKTICK] == [BACKTICK];
    } else {
      InsideScan(conf, s, s.inString, [BACKTICK], [BACKTICK] + after);
      InsideScan(conf, Kept(s, [BACKTICK]), s.inString, [BACKTICK], after);
    }
    KeptTwice(s, [BACKTICK], [BACKTICK]);
  }

  lemma LastBacktick(conf: Config, s: Scan)
    requires conf.delimiter != [] && conf.delimiter[0] != BACKTICK && Outside(s)
    ensures !Intact(s, Scanned(conf, s, [BACKTICK]))
  {
    hide Scanned;
    assert [BACKTICK] == [BACKTICK] + [];
    if s.inString == 0 {
      OpeningScan(conf, s, BACKTICK, []);
      ScannedNothing(conf, Begun(s, BACKTICK));
    } else {
      InsideScan(conf, s, s.inString, [BACKTICK], []);
      ScannedNothing(conf, Kept(s, [BACKTICK]));
    }
  }

  /** What is left of the quoted name behind its first unit. */
  lemma BehindUnit(t: bytes)
    requires t != [] && t[0] != BACKTICK && WholeCharacters(t)
    ensures var q, u := Doubled(BACKTICK, t) + [BACKTICK], Unit(true, t);
      && u <= |q| && q[0] == t[0] && Unit(true, q) == u
      && (t[0] == BACKSLASH ==> q[1] == if |t| == 1 then BACKTICK else t[1])
      && (u > |t| ==> t == [BACKSLASH] && q[u..] == [])
      && (u <= |t| ==> q[u..] == (if t[0] == BACKSLASH && t[1] == BACKTICK then [BACKTICK] else []) + (Doubled(BACKTICK, t[u..]) + [BACKTICK]))
  {
    var q, u := Doubled(BACKTICK, t) + [BACKTICK], Unit(true, t);
    if t == [BACKSLASH] {
      assert t[1..] == [] && Doubled(BACKTICK, t) == [BACKSLASH];
    } else {
      UnitFits(true, t);
      if t[0] == BACKSLASH && t[1] == BACKTICK {
        assert t[1..][1..] == t[2..];
        assert Doubled(BACKTICK, t) == [BACKSLASH] + ([BACKTICK, BACKTICK] + Doubled(BACKTICK, t[2..]));
        hide Doubled, WholeCharacters;
        assert q[2..] == [BACKTICK] + (Doubled(BACKTICK, t[2..]) + [BACKTICK]);
      } else {
        DoubledUnit(true, t);
        hide Doubled, WholeCharacters;
        assert q == t[..u] + (Doubled(BACKTICK, t[u..]) + [BACKTICK]);
        assert q[u..] == Doubled(BACKTICK, t[u..]) + [BACKTICK];
        assert [] + (Doubled(BACKTICK, t[u..]) + [BACKTICK]) == Doubled(BACKTICK, t[u..]) + [BACKTICK];
      }
    }
  }

  /** Once the scanner is outside the name too early, no rest of the name brings it back unnoticed. */
  lemma {:induction false} NeverMended(conf: Config, s: Scan, t: bytes)
    requires conf.delimiter != [] && conf.delimiter[0] != BACKTICK && !conf.noBackslashEscapes && Outside(s) && WholeCharacters(t)
    ensures !Intact(s, Scanned(conf, s, Doubled(BACKTICK, t) + [BACKTICK]))
    decreases |t|
  {
    var q := Doubled(BACKTICK, t) + [BACKTICK];
    if t == [] {
      assert q == [BACKTICK];
      LastBacktick(conf, s);
    } else if t[0] == BACKTICK {
      var more := Doubled(BACKTICK, t[1..]) + [BACKTICK];
      assert q == [BACKTICK, BACKTICK] + more;
      WholeTail(t, 1);
      hide Scanned, Doubled;
      DoubledOutside(conf, s, more);
      NeverMended(conf, Kept(s, [BACKTICK, BACKTICK]), t[1..]);
    } else {
      BehindUnit(t);
      hide Doubled, Turn;
      OutsideTurn(conf, s, q);
      TurnAdvances(conf, s, q);
      var m := Turn(conf, s, q);
      if m.Go? {
        assert Scanned(conf, s, q) == Scanned(conf, m.s, q[m.k..]);
        if Grown(s, m.s) {
          GrownIsNotIntact(conf, s, m.s, q[m.k..]);
        } else {
          BehindUnitOutside(conf, s, m.s, t);
        }
      }
    }
  }

  lemma {:induction false} BehindUnitOutside(conf: Config, s: Scan, s': Scan, t: bytes)
    requires conf.delimiter != [] && conf.delimiter[0] != BACKTICK && !conf.noBackslashEscapes
    requires t != [] && t[0] != BACKTICK && WholeCharacters(t) && Outside(s) && Outside(s') && SameSoFar(s, s')
    requires var q, u := Doubled(BACKTICK, t) + [BACKTICK], Unit(true, t);
      u <= |q| && (q[0] == BACKSLASH ==> |q| >= 2 && s'.inString == s.inString && (s.inString == 0 ==> q[1] == UPPER_N))
    ensures var q, u := Doubled(BACKTICK, t) + [BACKTICK], Unit(true, t); !Intact(s, Scanned(conf, s', q[u..]))
    decreases |t|, 0
  {
    BehindUnit(t);
    hide Doubled, Scanned;
    var u := Unit(true, t);
    if u > |t| {
      ScannedNothing(conf, s');
    } else {
      WholeTail(t, u);
      hide WholeCharacters;
      if t[0] == BACKSLASH && t[1] == BACKTICK {
        InsideScan(conf, s', s'.inString, [BACKTICK], Doubled(BACKTICK, t[u..]) + [BACKTICK]);
        NeverMended(conf, Kept(s', [BACKTICK]), t[u..]);
      } else {
        assert [] + (Doubled(BACKTICK, t[u..]) + [BACKTICK]) == Doubled(BACKTICK, t[u..]) + [BACKTICK];
        NeverMended(conf, s', t[u..]);
      }
    }
  }

  /** The first backslash that meets a backtick or the end of the name breaks it. */
  lemma {:induction false} UnsafeNameBreaks(conf: Config, st: Scan, s: bytes)
    requires conf.delimiter != [] && conf.delimiter[0] != BACKTICK && !conf.noBackslashEscapes
    requires InLiteral(conf, st, BACKTICK) && WholeCharacters(s) && !SafeBackslashes(s)
    ensures !Intact(st, Scanned(conf, st, Doubled(BACKTICK, s) + [BACKTICK]))
    decreases |s|
  {
    var q := Doubled(BACKTICK, s) + [BACKTICK];
    if s[0] == BACKTICK {
      var more := Doubled(BACKTICK, s[1..]) + [BACKTICK];
      assert q == [BACKTICK, BACKTICK] + more;
      WholeTail(s, 1);
      hide Scanned, Doubled;
      DoubledBacktick(conf, st, more);
      UnsafeNameBreaks(conf, Kept(st, [BACKTICK, BACKTICK]), s[1..]);
    } else {
      BehindUnit(s);
      var u := Unit(true, s);
      var unit, after := q[..u], q[u..];
      assert q == unit + after && unit[0] == q[0] && Unit(true, unit) == u;
      if s[0] != BACKSLASH {
        UnitFits(true, s);
        SafeTail(s, if u > 1 then u else 0);
      }
      hide Scanned, Doubled;
      InsideScan(conf, st, BACKTICK, unit, after);
      if u > |s| {
        ScannedNothing(conf, Kept(st, unit));
      } else {
        WholeTail(s, u);
        var more := Doubled(BACKTICK, s[u..]) + [BACKTICK];
        assert [] + more == more;
        if s[0] == BACKSLASH && s[1] == BACKTICK {
          ClosingScan(conf, Kept(st, unit), BACKTICK, more);
          NeverMended(conf, Kept(Kept(st, unit), [BACKTICK]).(inString := 0), s[u..]);
        } else {
          UnsafeNameBreaks(conf, Kept(st, unit), s[u..]);
        }
      }
    }
  }

  lemma UnsafeNameIsNotCopied(conf: Config, s0: Scan, name: bytes)
    requires conf.delimiter != [] && conf.delimiter[0] != BACKTICK && AtTop(s0) && WholeCharacters(name)
    requires 0 !in name && !conf.noBackslashEscapes && !SafeBackslashes(name)
    ensures !NameIsCopied(conf, s0, name)
  {
    DoubledNul(name);
    hide Scanned, WholeCharacters, SafeBackslashes, Doubled, UpToNul;
    var body, behind := Doubled(BACKTICK, name) + [BACKTICK], BehindName(s0, name);
    UnsafeNameBreaks(conf, Begun(s0, BACKTICK), name);
    OpeningScan(conf, s0, BACKTICK, body);
    assert QuotedName(name) + [] == [BACKTICK] + body;
    UpToNulWhole(QuotedName(name) + []);
    UpToNulWhole([]);
    ScannedNothing(conf, behind);
    assert Intact(s0, Scanned(conf, behind, UpToNul([])));
    assert !Intact(s0, Scanned(conf, s0, UpToNul(QuotedName(name) + [])));
  }

  /** Law: exactly which names of whole characters the client copies. */
  lemma NameSurvivesExactly(conf: Config, s0: Scan, name: bytes)
    requires conf.delimiter != [] && conf.delimiter[0] != BACKTICK && AtTop(s0) && WholeCharacters(name)
    ensures NameIsCopied(conf, s0, name) <==> 0 !in name && (conf.noBackslashEscapes || SafeBackslashes(name))
  {
    hide NameIsCopied, WholeCharacters, SafeBackslashes;
    if 0 in name {
      NulBreaksName(conf, s0, name);
    } else if conf.noBackslashEscapes || SafeBackslashes(name) {
      NameSurvives(conf, s0, name);
    } else {
      UnsafeNameIsNotCopied(conf, s0, name);
    }
  }

  /** The shortest such name: a backslash alone. */
  lemma BackslashedNameBreaks(conf: Config, s0: Scan)
    requires conf.delimiter != [] && conf.delimiter[0] != BACKTICK && !conf.noBackslashEscapes && AtTop(s0)
    ensures !NameIsCopied(conf, s0, [BACKSLASH])
    ensures NameIsCopied(conf, s0, [BACKSLASH, 98])
  {
    assert WholeCharacters([BACKSLASH]) && !SafeBackslashes([BACKSLASH]);
    var s: bytes := [BACKSLASH, 98];
    assert WholeCharacters(s) && s[2..] == [] && SafeBackslashes(s);
    hide NameIsCopied;
    NameSurvivesExactly(conf, s0, [BACKSLASH]);
    NameSurvivesExactly(conf, s0, s);
  }
}
