/**
  Loading a dump: the client scans its lines into statements and the server
  reads the rows back from them.
 */
module DumpReload {
  import opened Rds
  import opened Scanner
  import opened ServerText
  import opened DumpQuoting
  import opened ClientText
  import opened DumpInserts

  // ---------------------------------------------------------------- what the server reads

  predicate Digit(c: byte) {
    48 <= c <= 57
  }

  /** The text of an integer column. */
  predicate IsNumber(d: bytes) {
    var m := if At(d, 0) == DASH then 1 else 0;
    |d| > m && forall i :: m <= i < |d| ==> Digit(d[i])
  }

  function NumberEnd(q: bytes): (n: nat)
    ensures n <= |q|
  {
    if q == [] || !(Digit(q[0]) || q[0] == DASH) then 0 else 1 + NumberEnd(q[1..])
  }

  /** A value at the front of `q`, and what follows it. */
  function ReadValue(multi: bool, q: bytes): (r: Option<(Value, bytes)>)
    ensures r.Some? ==> |r.value.1| < |q|
  {
    if At(q, 0) == QUOTE then
      var text := ReadText(multi, QUOTE, q[1..]);
      if text.Some? then Some((Text(text.value.0), text.value.1)) else None
    else if StartsWith(q, [48, 120]) then
      var hex := ReadHex(q[2..]);
      Some((Text(hex.0), hex.1))
    else if StartsWith(q, NULL_TEXT) then Some((Null, q[4..]))
    else
      var n := NumberEnd(q);
      if n == 0 then None else Some((Text(q[..n]), q[n..]))
  }

  /** Values up to the closing parenthesis, and what follows it. */
  function ReadFields(multi: bool, q: bytes): (r: Option<(Row, bytes)>)
    ensures r.Some? ==> |r.value.1| < |q|
    decreases |q|
  {
    var v := ReadValue(multi, q);
    if v.None? then None
    else if At(v.value.1, 0) == CLOSE then Some(([v.value.0], v.value.1[1..]))
    else if At(v.value.1, 0) != COMMA then None
    else
      var more := ReadFields(multi, v.value.1[1..]);
      if more.None? then None else Some(([v.value.0] + more.value.0, more.value.1))
  }

  function ReadRow(multi: bool, q: bytes): (r: Option<(Row, bytes)>)
    ensures r.Some? ==> |r.value.1| < |q|
  {
    if At(q, 0) != OPEN then None
    else if At(q, 1) == CLOSE then Some(([], q[2..]))
    else ReadFields(multi, q[1..])
  }

  function ReadRows(multi: bool, q: bytes): Option<seq<Row>>
    decreases |q|
  {
    var row := ReadRow(multi, q);
    if row.None? then None
    else if row.value.1 == [] then Some([row.value.0])
    else if row.value.1[0] != COMMA then None
    else
      var more := ReadRows(multi, row.value.1[1..]);
      if more.None? then None else Some([row.value.0] + more.value)
  }

  datatype Parsed = Parsed(verb: bytes, name: bytes, rows: seq<Row>)

  function ReadVerb(q: bytes): Option<bytes> {
    if StartsWith(q, REPLACE_INTO) then Some(REPLACE_INTO)
    else if StartsWith(q, INSERT_IGNORE_INTO) then Some(INSERT_IGNORE_INTO)
    else if StartsWith(q, INSERT_INTO) then Some(INSERT_INTO)
    else None
  }

  /** A whole INSERT or REPLACE statement. */
  function ReadInsert(multi: bool, q: bytes): Option<Parsed> {
    var verb := ReadVerb(q);
    if verb.None? then None
    else
      var q1 := q[|verb.value|..];
      if At(q1, 0) != BACKTICK then None
      else
        var name := ReadName(BACKTICK, q1[1..]);
        if name.None? || !StartsWith(name.value.1, VALUES) then None
        else
          var rows := ReadRows(multi, name.value.1[|VALUES|..]);
          if rows.None? then None else Some(Parsed(verb.value, name.value.0, rows.value))
  }

  // ---------------------------------------------------------------- rows are read back

  /** The server only sends digits for integer columns. */
  predicate Fits(kind: Kind, v: Value) {
    kind.Number? && v.Text? ==> IsNumber(v.data)
  }

  predicate RowFits(kinds: seq<Kind>, row: Row) {
    |row| == |kinds| && forall i :: 0 <= i < |row| ==> Fits(kinds[i], row[i])
  }

  predicate Stop(rest: bytes) {
    rest != [] && (rest[0] == COMMA || rest[0] == CLOSE)
  }

  lemma {:induction false} NumberEndIs(d: bytes, rest: bytes)
    requires Stop(rest) && forall i :: 0 <= i < |d| ==> Digit(d[i]) || d[i] == DASH
    ensures NumberEnd(d + rest) == |d|
  {
    var q := d + rest;
    if d == [] {
      assert q == rest;
    } else {
      NumberEndIs(d[1..], rest);
      assert q[1..] == d[1..] + rest;
    }
  }

  lemma ValueIsRead(multi: bool, kind: Kind, v: Value, rest: bytes)
    requires Fits(kind, v) && Stop(rest)
    ensures ReadValue(multi, Field(kind, v) + rest) == Some((v, rest))
  {
    if v.Null? {
      var q := NULL_TEXT + rest;
      assert q[..4] == NULL_TEXT && q[4..] == rest && q[0] == 78;
    } else if kind.Characters? || (kind.Binary? && v.data == []) {
      LiteralIsRead(multi, v.data, rest);
    } else if kind.Binary? {
      HexIsRead(multi, v.data, rest);
    } else {
      NumberIsRead(multi, v.data, rest);
    }
  }

  lemma LiteralIsRead(multi: bool, d: bytes, rest: bytes)
    requires Stop(rest)
    ensures ReadValue(multi, Literal(d) + rest) == Some((Text(d), rest))
    ensures d == [] ==> HexLiteral(d) == Literal(d)
  {
    ServerReadsLiteral(multi, d, rest);
    assert Escape([]) == [];
    hide Escape, ReadText;
    QuotePrefix(Escape(d), rest);
  }

  lemma QuotePrefix(body: bytes, rest: bytes)
    ensures var q := [QUOTE] + body + [QUOTE] + rest; At(q, 0) == QUOTE && q[1..] == body + [QUOTE] + rest
  {
    assert [QUOTE] + body + [QUOTE] + rest == [QUOTE] + (body + [QUOTE] + rest);
  }

  lemma HexPrefix(pairs: bytes, rest: bytes)
    ensures var q := [48, 120] + pairs + rest; At(q, 0) == 48 && StartsWith(q, [48, 120]) && q[2..] == pairs + rest
  {
    var q := [48, 120] + pairs + rest;
    assert q == [48, 120] + (pairs + rest);
    assert q[..2] == [48, 120];
  }

  lemma HexIsRead(multi: bool, d: bytes, rest: bytes)
    requires Stop(rest) && d != []
    ensures ReadValue(multi, HexLiteral(d) + rest) == Some((Text(d), rest))
  {
    ServerReadsHex(d, rest);
    hide HexPairs, ReadHex, ReadText;
    assert HexLiteral(d) == [48, 120] + HexPairs(d);
    HexPrefix(HexPairs(d), rest);
  }

  lemma NumberIsRead(multi: bool, d: bytes, rest: bytes)
    requires IsNumber(d) && Stop(rest)
    ensures ReadValue(multi, d + rest) == Some((Text(d), rest))
  {
    var q := d + rest;
    assert q[0] == d[0] && q[1] == if |d| > 1 then d[1] else rest[0];
    assert !StartsWith(q, [48, 120]);
    assert !StartsWith(q, NULL_TEXT);
    NumberEndIs(d, rest);
    assert q[..|d|] == d && q[|d|..] == rest;
  }

  lemma FieldsFirst(kinds: seq<Kind>, row: Row)
    requires |kinds| == |row| && row != []
    ensures var f := Field(kinds[0], row[0]);
      Fields(kinds, row) == if |row| == 1 then f else f + [COMMA] + Fields(kinds[1..], row[1..])
  {
    hide Field;
    if |row| == 1 {
      assert row[1..] == [] && Fields(kinds[1..], row[1..]) == [];
    }
  }

  lemma FieldsJoin(f: bytes, more: bytes, tail: bytes)
    ensures f + [COMMA] + more + tail == f + ([COMMA] + (more + tail))
  {
  }

  lemma ReadLast(multi: bool, q: bytes, v: Value, rest: bytes)
    requires ReadValue(multi, q) == Some((v, [CLOSE] + rest))
    ensures ReadFields(multi, q) == Some(([v], rest))
  {
    hide ReadValue;
    assert ([CLOSE] + rest)[1..] == rest;
  }

  lemma ReadNext(multi: bool, q: bytes, v: Value, after: bytes, row: Row, rest: bytes)
    requires ReadValue(multi, q) == Some((v, [COMMA] + after)) && ReadFields(multi, after) == Some((row, rest))
    ensures ReadFields(multi, q) == Some(([v] + row, rest))
  {
    hide ReadValue;
    assert ([COMMA] + after)[1..] == after;
  }

  lemma {:induction false} FieldsAreRead(multi: bool, kinds: seq<Kind>, row: Row, rest: bytes)
    requires RowFits(kinds, row) && row != []
    ensures ReadFields(multi, Fields(kinds, row) + ([CLOSE] + rest)) == Some((row, rest))
    decreases |row|
  {
    var tail, f, more := [CLOSE] + rest, Field(kinds[0], row[0]), Fields(kinds[1..], row[1..]);
    FieldsFirst(kinds, row);
    hide ReadValue, Field, Fields, ReadFields;
    if |row| == 1 {
      ValueIsRead(multi, kinds[0], row[0], tail);
      ReadLast(multi, f + tail, row[0], rest);
      assert row == [row[0]];
    } else {
      FieldsAreRead(multi, kinds[1..], row[1..], rest);
      FieldsJoin(f, more, tail);
      ValueIsRead(multi, kinds[0], row[0], [COMMA] + (more + tail));
      ReadNext(multi, f + ([COMMA] + (more + tail)), row[0], more + tail, row[1..], rest);
      assert row == [row[0]] + row[1..];
    }
  }

  lemma RowParts(f: bytes, rest: bytes)
    ensures var q := [OPEN] + f + [CLOSE] + rest;
      q[0] == OPEN && q[1..] == f + ([CLOSE] + rest) && (if f == [] then q[1] == CLOSE && q[2..] == rest else q[1] == f[0])
  {
  }

  lemma RowIsRead(multi: bool, kinds: seq<Kind>, row: Row, rest: bytes)
    requires RowFits(kinds, row)
    ensures ReadRow(multi, [OPEN] + Fields(kinds, row) + [CLOSE] + rest) == Some((row, rest))
  {
    assert row == [] ==> Fields(kinds, row) == [];
    if row != [] {
      FieldsStart(kinds, row);
      FieldsAreRead(multi, kinds, row, rest);
    }
    hide Fields, ReadFields, RowFits;
    RowParts(Fields(kinds, row), rest);
  }

  lemma FieldsStart(kinds: seq<Kind>, row: Row)
    requires RowFits(kinds, row) && row != []
    ensures Fields(kinds, row) != [] && Fields(kinds, row)[0] != CLOSE
  {
    assert Fits(kinds[0], row[0]);
    var f := Field(kinds[0], row[0]);
    assert f != [] && f[0] != CLOSE;
  }

  predicate RowsFit(t: Table, rows: seq<Row>) {
    forall i :: 0 <= i < |rows| ==> RowFits(t.kinds, rows[i])
  }

  lemma {:induction false} RowsAreRead(multi: bool, t: Table, rows: seq<Row>)
    requires RowsFit(t, rows) && rows != []
    ensures ReadRows(multi, Tuples(t, rows)) == Some(rows)
    decreases |rows|
  {
    var sep, more := if |rows| > 1 then [COMMA] else [], Tuples(t, rows[1..]);
    var row := [OPEN] + Fields(t.kinds, rows[0]) + [CLOSE];
    hide Fields, RowFits, ReadRow;
    assert Tuples(t, rows) == row + sep + more && (rows[1..] == [] ==> more == []);
    Assoc(row, sep, more);
    RowIsRead(multi, t.kinds, rows[0], sep + more);
    if |rows| > 1 {
      RowsAreRead(multi, t, rows[1..]);
      hide Tuples;
      assert (sep + more)[1..] == more;
      assert rows == [rows[0]] + rows[1..];
    } else {
      assert rows[1..] == [] && sep + more == [];
      assert rows == [rows[0]];
    }
  }

  lemma VerbIsRead(o: Options, rest: bytes)
    ensures ReadVerb(Verb(o) + rest) == Some(Verb(o))
    ensures (Verb(o) + rest)[|Verb(o)|..] == rest
  {
    var q := Verb(o) + rest;
    assert q[..|Verb(o)|] == Verb(o);
    assert q[0] == Verb(o)[0] && q[7] == Verb(o)[7] && q[8] == Verb(o)[8];
    if !o.replace {
      assert !StartsWith(q, REPLACE_INTO);
      if !o.ignore {
        assert !StartsWith(q, INSERT_IGNORE_INTO);
      }
    }
  }

  /** Law: the server reads the table's name and every row back from a statement, whatever the bytes of the values. */
  lemma ServerReadsInsert(multi: bool, o: Options, t: Table, rows: seq<Row>)
    requires ReadableName(t.name) && RowsFit(t, rows) && rows != []
    ensures ReadInsert(multi, Insert(o, t, rows)) == Some(Parsed(Verb(o), t.name, rows))
  {
    hide Tuples, Doubled, ReadRows, ReadName, ReadVerb, Verb;
    var q := Insert(o, t, rows);
    var values := VALUES + Tuples(t, rows);
    var q1 := QuotedName(t.name) + values;
    assert q == Verb(o) + q1;
    VerbIsRead(o, q1);
    assert q1[0] == BACKTICK && q1[1..] == Doubled(BACKTICK, t.name) + [BACKTICK] + values;
    ServerReadsName(t.name, values);
    assert values[..|VALUES|] == VALUES && values[|VALUES|..] == Tuples(t, rows);
    RowsAreRead(multi, t, rows);
  }

  // ---------------------------------------------------------------- what the client copies

  /** The client as it loads a dump: the usual delimiter and escapes, and no statement makes it stop. */
  predicate Loading(conf: Config) {
    conf.delimiter == [SEMICOLON] && !conf.noBackslashEscapes && conf.quits == {}
  }

  /** In the middle of a statement, outside quotes and comments. */
  predicate InStatement(s: Scan) {
    AtTop(s) && !s.needSpace && s.pending != []
  }

  /** A byte that stands for itself outside quotes, whatever follows. */
  predicate Bare(c: byte) {
    c < 0x80 && c !in {0, BACKSLASH, QUOTE, DOUBLE_QUOTE, BACKTICK, HASH, DASH, SLASH, STAR, SEMICOLON, NEWLINE}
  }

  /** A name that the server can read, the client copies, and that stays on one line. */
  predicate NameLoads(name: bytes) {
    ReadableName(name) && SafeBackslashes(name) && NEWLINE !in name
  }

  lemma {:induction false} ReadableIsWhole(s: bytes)
    requires ReadableName(s)
    ensures WholeCharacters(s)
    decreases |s|
  {
    if s != [] {
      var k := CharLength(s[0]);
      ReadableIsWhole(s[k..]);
      forall p | 0 <= p < |s| ensures WholeAt(s, p) {
        if p >= k {
          assert WholeAt(s[k..], p - k);
          assert forall i :: p <= i < p + SequenceLength(s[p]) ==> s[i] == s[k..][i - k];
        }
      }
    }
  }

  lemma {:induction false} ReadableHasNoNul(s: bytes)
    requires ReadableName(s)
    ensures 0 !in s
    decreases |s|
  {
    if s != [] {
      var k := CharLength(s[0]);
      ReadableHasNoNul(s[k..]);
      assert 0 !in s[..k];
      assert s == s[..k] + s[k..];
    }
  }

  /** Text on one line that the client copies as it stands, whatever follows, without leaving the statement. */
  ghost predicate Copies(conf: Config, text: bytes)
    requires Loading(conf)
  {
    && NEWLINE !in text && 0 !in text
    && forall s, rest :: InStatement(s) ==> Scanned(conf, s, text + rest) == Scanned(conf, Kept(s, text), rest)
  }

  lemma CopiesBoth(conf: Config, a: bytes, b: bytes)
    requires Loading(conf) && Copies(conf, a) && Copies(conf, b)
    ensures Copies(conf, a + b)
  {
    hide Scanned;
    forall s, rest | InStatement(s) ensures Scanned(conf, s, a + b + rest) == Scanned(conf, Kept(s, a + b), rest) {
      assert a + b + rest == a + (b + rest);
      KeptTwice(s, a, b);
    }
  }

  lemma CopiesNothing(conf: Config)
    requires Loading(conf)
    ensures Copies(conf, [])
  {
    hide Scanned;
    forall s, rest | InStatement(s) ensures Scanned(conf, s, [] + rest) == Scanned(conf, Kept(s, []), rest) {
      assert [] + rest == rest && Kept(s, []) == s;
    }
  }

  lemma BareTurn(conf: Config, s: Scan, rest: bytes)
    requires Loading(conf) && AtTop(s) && !s.needSpace && rest != [] && (s.pending != [] || !IsSpace(rest[0]))
    requires Bare(rest[0]) || (rest[0] == DASH && At(rest, 1) != DASH)
    ensures Turn(conf, s, rest) == Go(Kept(s, [rest[0]]), 1)
  {
    assert !StartsWith(rest, conf.delimiter);
    assert s.pending + [] + [rest[0]] == s.pending + [rest[0]];
  }

  lemma BareStep(conf: Config, s: Scan, c: byte, rest: bytes)
    requires Loading(conf) && AtTop(s) && !s.needSpace && (s.pending != [] || !IsSpace(c))
    requires Bare(c) || (c == DASH && At(rest, 0) != DASH)
    ensures Scanned(conf, s, [c] + rest) == Scanned(conf, Kept(s, [c]), rest)
  {
    var text := [c] + rest;
    assert At(text, 1) == At(rest, 0);
    BareTurn(conf, s, text);
    hide Scanned, Turn;
    ScannedTurn(conf, s, text, Kept(s, [c]), 1);
    assert text[1..] == rest;
  }

  lemma {:induction false} CopiesBare(conf: Config, text: bytes)
    requires Loading(conf) && forall i :: 0 <= i < |text| ==> Bare(text[i])
    ensures Copies(conf, text)
  {
    if text == [] {
      CopiesNothing(conf);
    } else {
      hide Scanned;
      assert Bare(text[0]) && text[0] != NEWLINE && text[0] != 0;
      hide Bare;
      forall s, rest | InStatement(s) ensures Scanned(conf, s, [text[0]] + rest) == Scanned(conf, Kept(s, [text[0]]), rest) {
        BareStep(conf, s, text[0], rest);
      }
      CopiesBare(conf, text[1..]);
      CopiesBoth(conf, [text[0]], text[1..]);
      assert text == [text[0]] + text[1..];
    }
  }

  lemma {:induction false} EscapedHasNoNewline(d: bytes)
    ensures NEWLINE !in Escape(d)
  {
    if d != [] {
      EscapedHasNoNewline(d[1..]);
      assert NEWLINE !in EscapeByte(d[0]);
    }
  }

  lemma {:induction false} DoubledHasNoNewline(name: bytes)
    requires NEWLINE !in name
    ensures NEWLINE !in Doubled(BACKTICK, name)
  {
    if name != [] {
      DoubledHasNoNewline(name[1..]);
    }
  }

  lemma CopiesLiteral(conf: Config, d: bytes)
    requires Loading(conf) && Unbroken(true, d)
    ensures Copies(conf, Literal(d))
  {
    EscapedHasNoNewline(d);
    LiteralHasNoNul(d);
    assert NEWLINE !in Literal(d);
    hide Scanned, Literal, Walk;
    forall s, rest | InStatement(s) ensures Scanned(conf, s, Literal(d) + rest) == Scanned(conf, Kept(s, Literal(d)), rest) {
      LiteralSurvives(conf, s, d, rest);
      assert Owed(s) + Literal(d) == Literal(d);
    }
  }

  lemma CopiesName(conf: Config, name: bytes)
    requires Loading(conf) && NameLoads(name)
    ensures Copies(conf, QuotedName(name))
  {
    DoubledHasNoNewline(name);
    ReadableHasNoNul(name);
    DoubledNul(name);
    assert NEWLINE !in QuotedName(name) && 0 !in QuotedName(name);
    ReadableIsWhole(name);
    hide Scanned, QuotedName, ReadableName, WholeCharacters, SafeBackslashes;
    forall s, rest | InStatement(s) ensures Scanned(conf, s, QuotedName(name) + rest) == Scanned(conf, Kept(s, QuotedName(name)), rest) {
      SafeNameScan(conf, s, name, rest);
      assert Owed(s) + QuotedName(name) == QuotedName(name);
    }
  }

  lemma CopiesNumber(conf: Config, d: bytes)
    requires Loading(conf) && IsNumber(d)
    ensures Copies(conf, d)
  {
    if d[0] != DASH {
      CopiesBare(conf, d);
    } else {
      var digits := d[1..];
      CopiesBare(conf, digits);
      assert digits[0] != DASH && NEWLINE !in d && 0 !in d;
      hide Scanned;
      forall s, rest | InStatement(s) ensures Scanned(conf, s, d + rest) == Scanned(conf, Kept(s, d), rest) {
        assert d + rest == [DASH] + (digits + rest);
        assert At(digits + rest, 0) == digits[0];
        BareStep(conf, s, DASH, digits + rest);
        KeptTwice(s, [DASH], digits);
        assert d == [DASH] + digits;
      }
    }
  }

  lemma {:induction false} HexIsBare(d: bytes)
    ensures forall i :: 0 <= i < |HexPairs(d)| ==> Bare(HexPairs(d)[i])
  {
    if d != [] {
      HexIsBare(d[1..]);
      var p := HexPair(d[0]);
      assert Bare(p[0]) && Bare(p[1]);
    }
  }

  lemma CopiesHex(conf: Config, d: bytes)
    requires Loading(conf) && d != []
    ensures Copies(conf, HexLiteral(d))
  {
    HexIsBare(d);
    hide HexPairs;
    CopiesBare(conf, HexLiteral(d));
  }

  /** Values that the client passes on unchanged. */
  predicate Loadable(kind: Kind, v: Value) {
    Fits(kind, v) && (kind.Characters? && v.Text? ==> Unbroken(true, v.data))
  }

  predicate RowsLoadable(t: Table, rows: seq<Row>) {
    Shaped(t, rows) && forall i :: 0 <= i < |rows| ==> RowLoadable(t.kinds, rows[i])
  }

  predicate RowLoadable(kinds: seq<Kind>, row: Row) {
    |row| == |kinds| && forall i :: 0 <= i < |row| ==> Loadable(kinds[i], row[i])
  }

  lemma EmptyLoads()
    ensures Unbroken(true, []) && HexLiteral([]) == Literal([])
  {
    assert Escape([]) == [];
  }

  lemma CopiesField(conf: Config, kind: Kind, v: Value)
    requires Loading(conf) && Loadable(kind, v)
    ensures Copies(conf, Field(kind, v))
  {
    hide Copies, IsNumber, Walk, Escape;
    if v.Null? {
      CopiesBare(conf, NULL_TEXT);
    } else if kind.Number? {
      CopiesNumber(conf, v.data);
    } else if kind.Binary? && v.data != [] {
      CopiesHex(conf, v.data);
    } else {
      EmptyLoads();
      hide Unbroken, Literal, HexLiteral;
      CopiesLiteral(conf, v.data);
    }
  }

  lemma {:induction false} CopiesFields(conf: Config, kinds: seq<Kind>, row: Row)
    requires Loading(conf) && RowLoadable(kinds, row)
    ensures Copies(conf, Fields(kinds, row))
    decreases |row|
  {
    hide Copies, Loading;
    if row == [] {
      CopiesNothing(conf);
    } else {
      assert Loadable(kinds[0], row[0]);
      hide Loadable, Field;
      var f, sep, more := Field(kinds[0], row[0]), if |row| > 1 then [COMMA] else [], Fields(kinds[1..], row[1..]);
      CopiesField(conf, kinds[0], row[0]);
      CopiesBare(conf, sep);
      CopiesFields(conf, kinds[1..], row[1..]);
      CopiesBoth(conf, f, sep);
      CopiesBoth(conf, f + sep, more);
    }
  }

  lemma {:induction false} CopiesTuples(conf: Config, t: Table, rows: seq<Row>)
    requires Loading(conf) && RowsLoadable(t, rows)
    ensures Copies(conf, Tuples(t, rows))
    decreases |rows|
  {
    hide Copies, Loading;
    if rows == [] {
      CopiesNothing(conf);
    } else {
      assert RowLoadable(t.kinds, rows[0]);
      hide RowLoadable, Fields;
      var f, sep, more := Fields(t.kinds, rows[0]), if |rows| > 1 then [COMMA] else [], Tuples(t, rows[1..]);
      CopiesFields(conf, t.kinds, rows[0]);
      CopiesBare(conf, [OPEN]);
      CopiesBare(conf, [CLOSE]);
      CopiesBare(conf, sep);
      CopiesTuples(conf, t, rows[1..]);
      CopiesBoth(conf, [OPEN], f);
      CopiesBoth(conf, [OPEN] + f, [CLOSE]);
      CopiesBoth(conf, [OPEN] + f + [CLOSE], sep);
      CopiesBoth(conf, [OPEN] + f + [CLOSE] + sep, more);
    }
  }

  // ---------------------------------------------------------------- one line, one statement

  /** Between statements. */
  function Idle(events: seq<Event>): Between {
    Between([], 0, false, events)
  }

  /** A statement whose first character begins it and whose others are copied. */
  ghost predicate Clean(conf: Config, st: bytes)
    requires Loading(conf)
  {
    st != [] && Bare(st[0]) && !IsSpace(st[0]) && Copies(conf, st[1..])
  }

  lemma CleanIsOneLine(conf: Config, st: bytes)
    requires Loading(conf) && Clean(conf, st)
    ensures NEWLINE !in st + [SEMICOLON] && 0 !in st + [SEMICOLON]
  {
    assert st == [st[0]] + st[1..];
    hide Scanned;
  }

  lemma DelimiterTurn(conf: Config, s: Scan)
    requires Loading(conf) && InStatement(s) && s.buffer == []
    ensures Turn(conf, s, [SEMICOLON]) == Go(s.(pending := [], events := s.events + [Statement(s.pending)]), 1)
  {
    var rest: bytes := [SEMICOLON];
    assert rest[..1] == [SEMICOLON] && rest[1..1] == [] && rest[1..] == [];
    assert Spaces(rest, 1) == 1;
    assert s.buffer + (s.pending + []) == s.pending;
  }

  /** Law: a line with one clean statement fires that statement, and nothing else. */
  lemma LineFires(conf: Config, events: seq<Event>, st: bytes)
    requires Loading(conf) && Clean(conf, st)
    ensures AddLine(conf, Idle(events), st + [SEMICOLON]) == Added(false, Idle(events + [Statement(st)]))
  {
    CleanIsOneLine(conf, st);
    UpToNulWhole(st + [SEMICOLON]);
    hide Scanned, Turn, Bare, UpToNul;
    var line, s0 := st + [SEMICOLON], Begin(Idle(events));
    var more, s1, s2 := st[1..], Kept(s0, [st[0]]), Kept(s0, st);
    assert line == [st[0]] + (more + [SEMICOLON]);
    BareStep(conf, s0, st[0], more + [SEMICOLON]);
    assert InStatement(s1);
    KeptTwice(s0, [st[0]], more);
    assert [st[0]] + more == st;
    DelimiterTurn(conf, s2);
    assert [] + st == st;
    var s3 := s2.(pending := [], events := events + [Statement(st)]);
    ScannedTurn(conf, s2, [SEMICOLON], s3, 1);
    assert [SEMICOLON][1..] == [];
    ScannedNothing(conf, s3);
  }

  lemma CleanText(conf: Config, head: bytes, tail: bytes)
    requires Loading(conf) && head != [] && !IsSpace(head[0]) && (forall i :: 0 <= i < |head| ==> Bare(head[i])) && Copies(conf, tail)
    ensures Clean(conf, head + tail)
  {
    hide Copies, Bare;
    CopiesBare(conf, head[1..]);
    CopiesBoth(conf, head[1..], tail);
    assert (head + tail)[1..] == head[1..] + tail;
  }

  lemma VerbIsBare(o: Options)
    ensures Verb(o) != [] && !IsSpace(Verb(o)[0])
    ensures forall i :: 0 <= i < |Verb(o)| ==> Bare(Verb(o)[i])
    ensures forall i :: 0 <= i < |VALUES| ==> Bare(VALUES[i])
  {
  }

  lemma CleanInsert(conf: Config, o: Options, t: Table, rows: seq<Row>)
    requires Loading(conf) && NameLoads(t.name) && RowsLoadable(t, rows)
    ensures Clean(conf, Insert(o, t, rows))
  {
    var name, tuples := QuotedName(t.name), Tuples(t, rows);
    VerbIsBare(o);
    hide Copies, Tuples, QuotedName, Verb, Bare;
    CopiesName(conf, t.name);
    CopiesBare(conf, VALUES);
    CopiesTuples(conf, t, rows);
    CopiesBoth(conf, name, VALUES);
    CopiesBoth(conf, name + VALUES, tuples);
    CleanText(conf, Verb(o), name + VALUES + tuples);
    ThreeTimes(Verb(o), name, VALUES, tuples);
  }

  lemma {:induction false} NothingToDouble(quote: byte, s: bytes)
    requires quote !in s
    ensures Doubled(quote, s) == s
  {
    if s != [] {
      assert quote !in s[1..];
      NothingToDouble(quote, s[1..]);
    }
  }

  lemma CleanAlter(conf: Config, name: bytes, tail: bytes)
    requires Loading(conf) && NameLoads(name) && forall i :: 0 <= i < |tail| ==> Bare(tail[i])
    ensures Clean(conf, ALTER_TABLE + QuotedName(name) + tail)
  {
    hide Copies, QuotedName;
    CopiesName(conf, name);
    CopiesBare(conf, tail);
    CopiesBoth(conf, QuotedName(name), tail);
    CleanText(conf, ALTER_TABLE, QuotedName(name) + tail);
    assert ALTER_TABLE + (QuotedName(name) + tail) == ALTER_TABLE + QuotedName(name) + tail;
  }

  ghost predicate AllClean(conf: Config, sts: seq<bytes>)
    requires Loading(conf)
  {
    forall i :: 0 <= i < |sts| ==> Clean(conf, sts[i])
  }

  /** What the whole dump of a table needs. */
  predicate TableLoadable(o: Options, t: Table, rows: seq<Row>) {
    NameLoads(t.name) && RowsLoadable(t, rows) && (o.disableKeys ==> BACKTICK !in t.name)
  }

  lemma {:induction false} GroupsLoadable(o: Options, t: Table, open: seq<Row>, rows: seq<Row>)
    requires RowsLoadable(t, open) && RowsLoadable(t, rows)
    ensures forall g :: g in Groups(o, t, open, rows) ==> g != [] && Shaped(t, g) && RowsLoadable(t, g)
    decreases |rows|
  {
    if rows != [] {
      hide RowLoadable;
      GroupsLoadable(o, t, [], rows[1..]);
      GroupsLoadable(o, t, open + [rows[0]], rows[1..]);
    }
  }

  lemma {:induction false} InsertsAreClean(conf: Config, o: Options, t: Table, gs: seq<seq<Row>>)
    requires Loading(conf) && NameLoads(t.name) && forall g :: g in gs ==> Shaped(t, g) && RowsLoadable(t, g)
    ensures AllClean(conf, Inserts(o, t, gs))
  {
    if gs != [] {
      assert gs[0] in gs;
      InsertsAreClean(conf, o, t, gs[1..]);
      CleanInsert(conf, o, t, gs[0]);
    }
  }

  lemma OthersAreClean(conf: Config, o: Options, t: Table)
    requires Loading(conf) && NameLoads(t.name) && (o.disableKeys ==> BACKTICK !in t.name)
    ensures AllClean(conf, Before(o, t)) && AllClean(conf, After(o, t))
  {
    CleanAlter(conf, t.name, DISABLE_KEYS);
    CleanAlter(conf, t.name, ENABLE_KEYS);
    CleanFixed(conf);
    hide Clean, Doubled;
    if o.disableKeys {
      NothingToDouble(BACKTICK, t.name);
      ThreeTimes(ALTER_TABLE, [BACKTICK], t.name, [BACKTICK]);
    }
    hide QuotedName;
  }

  lemma StatementsAreClean(conf: Config, o: Options, t: Table, rows: seq<Row>)
    requires Loading(conf) && TableLoadable(o, t, rows)
    ensures AllClean(conf, Statements(o, t, rows))
  {
    GroupsLoadable(o, t, [], rows);
    InsertsAreClean(conf, o, t, Groups(o, t, [], rows));
    OthersAreClean(conf, o, t);
    hide Clean, Inserts, Groups, Before, After, TableLoadable;
  }

  lemma CleanFixed(conf: Config)
    requires Loading(conf)
    ensures Clean(conf, START_TRANSACTION) && Clean(conf, COMMIT)
  {
    hide Copies;
    CopiesNothing(conf);
    CleanText(conf, START_TRANSACTION, []);
    CleanText(conf, COMMIT, []);
    assert START_TRANSACTION + [] == START_TRANSACTION && COMMIT + [] == COMMIT;
  }

  // ---------------------------------------------------------------- the whole dump

  /**
    The lines of a file that `LineBuffer::readline` delivers.  `getline` into a
    buffer of `limit` bytes fails at a line of that many bytes or more, and the
    client takes the failure for the end of the file.
   */
  function ReadLines(limit: nat, text: bytes): seq<bytes>
    decreases |text|
  {
    if text == [] then []
    else
      var n := Find(text, NEWLINE, 0);
      if n >= limit then []
      else if n == |text| then [text]
      else [text[..n]] + ReadLines(limit, text[n + 1..])
  }

  /** The printing characters but the space. */
  predicate Graphic(c: byte) {
    33 <= c <= 126
  }

  /** `remove_cntrl` */
  function WithoutTail(text: bytes): bytes {
    if text != [] && !Graphic(text[|text| - 1]) then WithoutTail(text[..|text| - 1]) else text
  }

  /** `read_and_execute` on a file: its lines, and at the end what is left in the buffer. */
  function LoadFile(conf: Config, text: bytes): Added
    requires conf.delimiter != []
  {
    var a := AddLines(conf, Idle([]), ReadLines(conf.maxInputLine, text));
    if a.ReadsPastTheEnd? || a.quit then a
    else
      var last := WithoutTail(a.state.buffer);
      if last == [] then Added(false, a.state.(buffer := []))
      else Added(|a.state.events| in conf.quits, a.state.(buffer := last, events := a.state.events + [Statement(last)]))
  }

  /** The lines that are read of a file with these statements and an empty line. */
  function LinesRead(limit: nat, sts: seq<bytes>): seq<bytes> {
    if sts == [] then (if limit == 0 then [] else [[]])
    else if |sts[0]| + 1 >= limit then []
    else [sts[0] + [SEMICOLON]] + LinesRead(limit, sts[1..])
  }

  /** How many statements stand before the first line that is too long. */
  function Short(limit: nat, sts: seq<bytes>): (n: nat)
    ensures n <= |sts|
  {
    if sts == [] || |sts[0]| + 1 >= limit then 0 else 1 + Short(limit, sts[1..])
  }

  predicate AllShort(limit: nat, sts: seq<bytes>) {
    forall i :: 0 <= i < |sts| ==> |sts[i]| + 1 < limit
  }

  /** The count reaches `m` exactly if none of the first `m` lines is too long. */
  lemma {:induction false} ShortIs(limit: nat, sts: seq<bytes>, m: nat)
    requires m <= |sts|
    ensures m <= Short(limit, sts) <==> AllShort(limit, sts[..m])
    decreases m
  {
    if m > 0 {
      ShortIs(limit, sts[1..], m - 1);
      var first := sts[..m];
      assert first[0] == sts[0] && first[1..] == sts[1..][..m - 1];
      assert forall i :: 0 <= i < m - 1 ==> first[1..][i] == first[i + 1];
      assert forall i :: 1 <= i < m ==> first[i] == first[1..][i - 1];
    }
  }

  function Fired(sts: seq<bytes>): seq<Event> {
    if sts == [] then [] else [Statement(sts[0])] + Fired(sts[1..])
  }

  lemma {:induction false} FindFirst(line: bytes, rest: bytes, from: nat)
    requires NEWLINE !in line && from <= |line|
    ensures Find(line + [NEWLINE] + rest, NEWLINE, from) == |line|
    decreases |line| - from
  {
    var text := line + [NEWLINE] + rest;
    if from < |line| {
      assert text[from] == line[from];
      FindFirst(line, rest, from + 1);
    } else {
      assert text[from] == NEWLINE;
    }
  }

  lemma ReadFirst(limit: nat, line: bytes, rest: bytes)
    requires NEWLINE !in line
    ensures ReadLines(limit, line + [NEWLINE] + rest) == if |line| >= limit then [] else [line] + ReadLines(limit, rest)
  {
    var text := line + [NEWLINE] + rest;
    FindFirst(line, rest, 0);
    assert text[..|line|] == line && text[|line| + 1..] == rest;
  }

  lemma JoinedFirst(sts: seq<bytes>)
    requires sts != []
    ensures Joined(sts) + [NEWLINE] == sts[0] + [SEMICOLON] + [NEWLINE] + (Joined(sts[1..]) + [NEWLINE])
  {
    var more := Joined(sts[1..]);
    assert Joined(sts) == sts[0] + [SEMICOLON, NEWLINE] + more;
    hide Joined;
  }

  lemma {:induction false} LinesAreRead(conf: Config, limit: nat, sts: seq<bytes>)
    requires Loading(conf) && AllClean(conf, sts)
    ensures ReadLines(limit, Joined(sts) + [NEWLINE]) == LinesRead(limit, sts)
  {
    if sts == [] {
      ReadFirst(limit, [], []);
      assert Joined(sts) + [NEWLINE] == [] + [NEWLINE] + [];
    } else {
      var line, rest := sts[0] + [SEMICOLON], Joined(sts[1..]) + [NEWLINE];
      CleanIsOneLine(conf, sts[0]);
      LinesAreRead(conf, limit, sts[1..]);
      hide Clean, ReadLines;
      ReadFirst(limit, line, rest);
      JoinedFirst(sts);
    }
  }

  lemma FiredOnce(events: seq<Event>, sts: seq<bytes>, n: nat)
    requires n < |sts|
    ensures events + [Statement(sts[0])] + Fired(sts[1..][..n]) == events + Fired(sts[..n + 1])
  {
    assert sts[..n + 1][1..] == sts[1..][..n];
  }

  /** The statements of the lines that are read are fired. */
  lemma {:induction false} LinesFire(conf: Config, events: seq<Event>, limit: nat, sts: seq<bytes>)
    requires Loading(conf) && AllClean(conf, sts)
    ensures AddLines(conf, Idle(events), LinesRead(limit, sts)) == Added(false, Idle(events + Fired(sts[..Short(limit, sts)])))
    decreases |sts|
  {
    hide Clean, AddLine;
    var lines := LinesRead(limit, sts);
    if sts == [] {
      assert events + [] == events;
      if limit > 0 {
        assert lines[1..] == [];
        EmptyLine(conf, events);
      }
    } else if |sts[0]| + 1 >= limit {
      assert sts[..0] == [] && events + [] == events;
    } else {
      LineFires(conf, events, sts[0]);
      LinesFire(conf, events + [Statement(sts[0])], limit, sts[1..]);
      hide Idle;
      assert lines[1..] == LinesRead(limit, sts[1..]) && lines[0] == sts[0] + [SEMICOLON];
      FiredOnce(events, sts, Short(limit, sts[1..]));
    }
  }

  lemma EmptyLine(conf: Config, events: seq<Event>)
    requires Loading(conf)
    ensures AddLine(conf, Idle(events), []) == Added(false, Idle(events))
  {
  }

  /** The rows that the fired statements insert into a table. */
  function Restored(multi: bool, name: bytes, events: seq<Event>): seq<Row> {
    if events == [] then [] else RowsOf(multi, name, events[0]) + Restored(multi, name, events[1..])
  }

  function RowsOf(multi: bool, name: bytes, e: Event): seq<Row> {
    if !e.Statement? then []
    else
      var p := ReadInsert(multi, e.text);
      if p.Some? && p.value.name == name then p.value.rows else []
  }

  /** The rows of a list of statements. */
  function Contents(multi: bool, name: bytes, sts: seq<bytes>): seq<Row> {
    Restored(multi, name, Fired(sts))
  }

  lemma {:induction false} ContentsAppend(multi: bool, name: bytes, a: seq<bytes>, b: seq<bytes>)
    ensures Contents(multi, name, a + b) == Contents(multi, name, a) + Contents(multi, name, b)
  {
    hide RowsOf;
    if a == [] {
      assert a + b == b;
    } else {
      assert (a + b)[1..] == a[1..] + b && (a + b)[0] == a[0];
      assert Fired(a + b)[1..] == Fired(a[1..] + b) && Fired(a)[1..] == Fired(a[1..]);
      ContentsAppend(multi, name, a[1..], b);
    }
  }

  lemma ContentsFirst(multi: bool, name: bytes, st: bytes, more: seq<bytes>)
    ensures Contents(multi, name, [st] + more) == RowsOf(multi, name, Statement(st)) + Contents(multi, name, more)
  {
    hide RowsOf;
    assert ([st] + more)[1..] == more;
    assert Fired([st] + more)[1..] == Fired(more);
  }

  /** Neither an INSERT nor a REPLACE. */
  predicate Other(st: bytes) {
    st != [] && st[0] != 82 && st[0] != 73
  }

  lemma {:induction false} OthersInsertNothing(multi: bool, name: bytes, sts: seq<bytes>)
    requires forall i :: 0 <= i < |sts| ==> Other(sts[i])
    ensures Contents(multi, name, sts) == []
  {
    if sts != [] {
      OthersInsertNothing(multi, name, sts[1..]);
      assert Other(sts[0]) && ReadVerb(sts[0]).None?;
      assert RowsOf(multi, name, Statement(sts[0])) == [];
      hide ReadVerb, RowsOf, Other;
      ContentsFirst(multi, name, sts[0], sts[1..]);
      assert sts == [sts[0]] + sts[1..];
    }
  }

  lemma {:induction false} InsertsRestore(multi: bool, o: Options, t: Table, gs: seq<seq<Row>>)
    requires ReadableName(t.name) && forall g :: g in gs ==> g != [] && Shaped(t, g) && RowsLoadable(t, g)
    ensures Contents(multi, t.name, Inserts(o, t, gs)) == Flat(gs)
  {
    if gs != [] {
      assert gs[0] in gs;
      var sts, first, more := Inserts(o, t, gs), Insert(o, t, gs[0]), Inserts(o, t, gs[1..]);
      ServerReadsInsert(multi, o, t, gs[0]);
      InsertsRestore(multi, o, t, gs[1..]);
      hide ReadInsert, Insert, RowsLoadable, ReadableName;
      assert sts == [first] + more;
      hide Inserts, Contents;
      ContentsFirst(multi, t.name, first, more);
    }
  }

  /** The statements up to the last INSERT. */
  function Leading(o: Options, t: Table, rows: seq<Row>): seq<bytes>
    requires Shaped(t, rows)
  {
    if rows == [] then [] else Before(o, t) + Inserts(o, t, Groups(o, t, [], rows))
  }

  lemma {:induction false} InsertsPrefix(o: Options, t: Table, gs: seq<seq<Row>>, m: nat)
    requires m <= |gs| && forall g :: g in gs ==> Shaped(t, g)
    ensures Inserts(o, t, gs)[..m] == Inserts(o, t, gs[..m])
    decreases m
  {
    if m > 0 {
      InsertsPrefix(o, t, gs[1..], m - 1);
      hide Insert;
      assert gs[..m][0] == gs[0] && gs[..m][1..] == gs[1..][..m - 1];
    }
  }

  lemma {:induction false} FlatPrefix(gs: seq<seq<Row>>, m: nat)
    requires m < |gs| && forall i :: 0 <= i < |gs| ==> gs[i] != []
    ensures |Flat(gs[..m])| < |Flat(gs)|
    decreases m
  {
    if m > 0 {
      FlatPrefix(gs[1..], m - 1);
      assert gs[..m][0] == gs[0] && gs[..m][1..] == gs[1..][..m - 1];
    }
  }

  lemma OpeningAndClosing(o: Options, t: Table)
    ensures forall i :: 0 <= i < |Before(o, t)| ==> Other(Before(o, t)[i])
    ensures forall i :: 0 <= i < |After(o, t)| ==> Other(After(o, t)[i])
  {
    hide QuotedName;
  }

  /** `n` brought into the range 0 to `most`. */
  function Within(n: int, most: nat): nat {
    if n < 0 then 0 else if n > most then most else n
  }

  lemma PrefixOfThree(a: seq<bytes>, b: seq<bytes>, c: seq<bytes>, n: nat)
    requires n <= |a| + |b| + |c|
    ensures (a + b + c)[..n] == a[..Within(n, |a|)] + b[..Within(n - |a|, |b|)] + c[..Within(n - |a| - |b|, |c|)]
  {
  }

  lemma RestoredOf(multi: bool, o: Options, t: Table, before: seq<bytes>, gs: seq<seq<Row>>, after: seq<bytes>)
    requires ReadableName(t.name) && forall g :: g in gs ==> g != [] && Shaped(t, g) && RowsLoadable(t, g)
    requires forall i :: 0 <= i < |before| ==> Other(before[i])
    requires forall i :: 0 <= i < |after| ==> Other(after[i])
    ensures Contents(multi, t.name, before + Inserts(o, t, gs) + after) == Flat(gs)
  {
    var inserts := Inserts(o, t, gs);
    InsertsRestore(multi, o, t, gs);
    OthersInsertNothing(multi, t.name, before);
    OthersInsertNothing(multi, t.name, after);
    hide Contents, Inserts, Other, RowsLoadable, ReadableName;
    ContentsAppend(multi, t.name, before + inserts, after);
    ContentsAppend(multi, t.name, before, inserts);
  }

  /** The first `n` statements: opening statements, the INSERTs of the first groups, closing statements. */
  lemma FirstStatements(o: Options, t: Table, gs: seq<seq<Row>>, before: seq<bytes>, after: seq<bytes>, n: nat)
    requires (forall g :: g in gs ==> Shaped(t, g)) && n <= |before| + |gs| + |after|
    ensures var k := Within(n - |before|, |gs|);
      (before + Inserts(o, t, gs) + after)[..n]
        == before[..Within(n, |before|)] + Inserts(o, t, gs[..k]) + after[..Within(n - |before| - |gs|, |after|)]
  {
    PrefixOfThree(before, Inserts(o, t, gs), after, n);
    InsertsPrefix(o, t, gs, Within(n - |before|, |gs|));
    hide Inserts, Within;
  }

  /** The rows in the first groups. */
  lemma RowsOfGroups(gs: seq<seq<Row>>, k: nat, rows: seq<Row>)
    requires k <= |gs| && Flat(gs) == rows && forall i :: 0 <= i < |gs| ==> gs[i] != []
    ensures Flat(gs[..k]) == rows <==> k == |gs|
  {
    if k < |gs| {
      FlatPrefix(gs, k);
    } else {
      assert gs[..k] == gs;
    }
  }

  /** The rows in the first `n` statements: all of them exactly if no INSERT is missing. */
  lemma StatementsRestore(multi: bool, o: Options, t: Table, rows: seq<Row>, n: nat)
    requires TableLoadable(o, t, rows) && n <= |Statements(o, t, rows)|
    ensures Contents(multi, t.name, Statements(o, t, rows)[..n]) == rows <==> n >= |Leading(o, t, rows)|
  {
    var sts := Statements(o, t, rows);
    if rows == [] {
      assert sts[..n] == [];
    } else {
      var gs, before, after := Groups(o, t, [], rows), Before(o, t), After(o, t);
      GroupsLoadable(o, t, [], rows);
      GroupsKeepRows(o, t, [], rows);
      OpeningAndClosing(o, t);
      assert ReadableName(t.name) && [] + rows == rows;
      var k := Within(n - |before|, |gs|);
      assert k == |gs| <==> n >= |before| + |gs|;
      hide TableLoadable, Before, After, Groups, Other, RowsLoadable, ReadableName, Contents, Inserts, Flat;
      FirstStatements(o, t, gs, before, after, n);
      RestoredOf(multi, o, t, before[..Within(n, |before|)], gs[..k], after[..Within(n - |before| - |gs|, |after|)]);
      RowsOfGroups(gs, k, rows);
    }
  }

  lemma FiredPrefix(sts: seq<bytes>, n: nat)
    requires n <= |sts|
    ensures |Fired(sts)| == |sts|
    ensures Fired(sts[..n]) == Fired(sts) <==> n == |sts|
  {
    FiredSize(sts);
    FiredSize(sts[..n]);
    assert sts[..|sts|] == sts;
  }

  lemma {:induction false} FiredSize(sts: seq<bytes>)
    ensures |Fired(sts)| == |sts|
  {
    if sts != [] {
      FiredSize(sts[1..]);
    }
  }

  lemma DumpIsLoaded(conf: Config, o: Options, t: Table, rows: seq<Row>)
    requires Loading(conf) && TableLoadable(o, t, rows)
    ensures var sts := Statements(o, t, rows);
      LoadFile(conf, DumpText(o, t, rows)) == Added(false, Idle(Fired(sts[..Short(conf.maxInputLine, sts)])))
  {
    var sts := Statements(o, t, rows);
    if rows != [] {
      StatementsAreClean(conf, o, t, rows);
      LinesAreRead(conf, conf.maxInputLine, sts);
      LinesFire(conf, [], conf.maxInputLine, sts);
      hide Statements, AddLines;
      assert [] + Fired(sts[..Short(conf.maxInputLine, sts)]) == Fired(sts[..Short(conf.maxInputLine, sts)]);
    }
  }

  /**
    Law: a client that loads a dump hands the dump's statements to the server, one
    for each line, up to the first line that its reader cannot hold, and ends
    outside quotes and comments with nothing left over.  All statements arrive
    exactly if every line is shorter than the limit; the server reads each row of
    the table once and in order exactly if every line up to the last INSERT is.
   */
  lemma DumpIsReloaded(conf: Config, multi: bool, o: Options, t: Table, rows: seq<Row>)
    requires Loading(conf) && TableLoadable(o, t, rows)
    ensures var sts, a, limit := Statements(o, t, rows), LoadFile(conf, DumpText(o, t, rows)), conf.maxInputLine;
      && a == Added(false, Idle(Fired(sts[..Short(limit, sts)])))
      && (a.state.events == Fired(sts) <==> AllShort(limit, sts))
      && (Restored(multi, t.name, a.state.events) == rows <==> AllShort(limit, Leading(o, t, rows)))
  {
    var sts, first, limit := Statements(o, t, rows), Leading(o, t, rows), conf.maxInputLine;
    assert first <= sts;
    DumpIsLoaded(conf, o, t, rows);
    StatementsRestore(multi, o, t, rows, Short(limit, sts));
    hide Statements, Leading, LoadFile, TableLoadable, AllShort, Short;
    ShortIs(limit, sts, |sts|);
    ShortIs(limit, sts, |first|);
    FiredPrefix(sts, Short(limit, sts));
    assert sts[..|sts|] == sts && sts[..|first|] == first;
  }

  lemma {:induction false} EscapedIsLonger(d: bytes)
    ensures |Escape(d)| >= |d|
  {
    if d != [] {
      EscapedIsLonger(d[1..]);
    }
  }

  lemma OneRow(o: Options, t: Table, row: Row)
    requires Shaped(t, [row])
    ensures Groups(o, t, [], [row]) == [[row]]
  {
    var rows := [row];
    hide Full;
    assert rows[1..] == [] && [] + [row] == rows;
    assert Groups(o, t, [], rows) == if Full(o, t, rows) then [rows] + Groups(o, t, [], []) else Groups(o, t, rows, []);
  }

  /** The failing input: one text value that fills a line is lost, and the client notices nothing. */
  lemma LongValueIsLost(conf: Config, multi: bool, o: Options, name: bytes, d: bytes)
    requires Loading(conf) && NameLoads(name) && BACKTICK !in name && WholeCharacters(d) && |d| >= conf.maxInputLine
    ensures var t, rows := Table(name, [Characters]), [[Text(d)]];
      TableLoadable(o, t, rows) &&
      var a := LoadFile(conf, DumpText(o, t, rows));
      a.Added? && !a.quit && a.state.buffer == [] && Restored(multi, name, a.state.events) != rows
  {
    var t, row, rows := Table(name, [Characters]), [Text(d)], [[Text(d)]];
    WholeCharactersAreUnbroken(d);
    EscapedIsLonger(d);
    hide Escape, Walk;
    assert RowLoadable(t.kinds, row);
    var gs := Groups(o, t, [], rows);
    OneRow(o, t, row);
    var st := Insert(o, t, rows);
    assert Fields(t.kinds, row) == Literal(d);
    assert |st| >= |Literal(d)|;
    DumpIsReloaded(conf, multi, o, t, rows);
    assert Inserts(o, t, gs)[0] == st;
    assert Leading(o, t, rows)[|Before(o, t)|] == st;
    assert !AllShort(conf.maxInputLine, Leading(o, t, rows));
  }

  // ---------------------------------------------------------------- the closing statement

  lemma ReadableStartBoth(a: bytes, b: bytes)
    requires a != [] && ReadableStart(a)
    ensures ReadableStart(a + b)
  {
    hide CharLength;
    assert (a + b)[0] == a[0];
    assert forall i :: 0 <= i < CharLength(a[0]) ==> (a + b)[i] == a[i];
  }

  lemma DropBoth(a: bytes, b: bytes, k: nat)
    requires k <= |a|
    ensures (a + b)[k..] == a[k..] + b
  {
  }

  lemma {:induction false} ReadableBoth(a: bytes, b: bytes)
    requires ReadableName(a) && ReadableName(b)
    ensures ReadableName(a + b)
    decreases |a|
  {
    if a == [] {
      assert a + b == b;
    } else {
      var k := CharLength(a[0]);
      ReadableStartBoth(a, b);
      assert 1 <= k <= |a|;
      ReadableBoth(a[k..], b);
      hide CharLength, ReadableStart;
      DropBoth(a, b, k);
    }
  }

  lemma {:induction false} ReadableAscii(s: bytes)
    requires forall i :: 0 <= i < |s| ==> Bare(s[i]) || s[i] == BACKTICK
    ensures ReadableName(s)
  {
    if s != [] {
      assert Bare(s[0]) || s[0] == BACKTICK;
      ReadableAscii(s[1..]);
    }
  }

  lemma HalvedCharacter(b: bytes, k: nat)
    requires 1 <= k <= |b| && BACKTICK !in b[..k]
    ensures |Halved(BACKTICK, b)| == k + |Halved(BACKTICK, b[k..])|
    ensures BACKTICK in b <==> BACKTICK in b[k..]
  {
    HalvedSkip(BACKTICK, b, k);
    hide Halved;
    assert b == b[..k] + b[k..];
  }

  lemma PrefixParts(q: bytes, k: nat, n: nat)
    requires k <= n <= |q|
    ensures q[..n][..k] == q[..k] && q[..n][k..] == q[k..][..n - k]
  {
  }

  lemma {:induction false} HalvedShrinks(q: bytes)
    requires ReadableName(q) && NameEnd(BACKTICK, q).Some?
    ensures var n := NameEnd(BACKTICK, q).value; |Halved(BACKTICK, q[..n])| <= n
    ensures var n := NameEnd(BACKTICK, q).value; BACKTICK in q[..n] ==> |Halved(BACKTICK, q[..n])| < n
    decreases |q|
  {
    var n := NameEnd(BACKTICK, q).value;
    var k := CharLength(q[0]);
    if k > 1 || q[0] != BACKTICK {
      HalvedShrinks(q[k..]);
      assert n == k + NameEnd(BACKTICK, q[k..]).value;
      assert BACKTICK !in q[..k];
      hide Halved, NameEnd, CharLength, ReadableName;
      PrefixParts(q, k, n);
      HalvedCharacter(q[..n], k);
    } else if At(q, 1) == BACKTICK {
      ReadableTail(q);
      HalvedShrinks(q[2..]);
      assert n == 2 + NameEnd(BACKTICK, q[2..]).value;
      hide NameEnd, CharLength, ReadableName;
      var body := q[..n];
      PrefixParts(q, 2, n);
      assert Halved(BACKTICK, body) == [BACKTICK] + Halved(BACKTICK, body[2..]);
      hide Halved;
    }
  }

  lemma ReadableTail(q: bytes)
    requires ReadableName(q) && |q| >= 2 && q[0] < 0x80 && q[1] < 0x80
    ensures ReadableName(q[2..])
  {
    assert q[1..][1..] == q[2..];
  }

  lemma QuoteMisleads(name: bytes, tail: bytes)
    requires ReadableName(name + [BACKTICK] + tail) && BACKTICK in name
    ensures ReadName(BACKTICK, name + [BACKTICK] + tail) != Some((name, tail))
  {
    var q := name + [BACKTICK] + tail;
    if NameEnd(BACKTICK, q).Some? {
      HalvedShrinks(q);
      var n := NameEnd(BACKTICK, q).value;
      hide Halved, NameEnd, ReadableName;
      if n == |name| {
        assert q[..n] == name;
        assert |Halved(BACKTICK, q[..n])| != |name|;
      } else {
        assert |q[n + 1..]| != |tail|;
      }
    }
  }

  /** Law: the closing ALTER TABLE names the table exactly if the name holds no quote. */
  lemma EnableKeysNames(name: bytes)
    requires ReadableName(name)
    ensures ReadName(BACKTICK, name + [BACKTICK] + ENABLE_KEYS) == Some((name, ENABLE_KEYS)) <==> BACKTICK !in name
  {
    hide ReadName, Doubled, ReadableName;
    if BACKTICK !in name {
      NothingToDouble(BACKTICK, name);
      ServerReadsName(name, ENABLE_KEYS);
    } else {
      ReadableAscii([BACKTICK] + ENABLE_KEYS);
      ReadableBoth(name, [BACKTICK] + ENABLE_KEYS);
      assert name + [BACKTICK] + ENABLE_KEYS == name + ([BACKTICK] + ENABLE_KEYS);
      QuoteMisleads(name, ENABLE_KEYS);
    }
  }
}
