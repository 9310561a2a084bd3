/**
  The INSERT statements of a dump, `operator<<` for `DrizzleDumpData` in
  client/drizzledump_data.cc: what a dump of a table consists of, how its rows
  are grouped into statements, and the writer that produces it.
 */
module DumpInserts {
  import opened Rds
  import opened Scanner
  import opened ServerText
  import opened DumpQuoting

  const COMMA: byte := 44
  const OPEN: byte := 40
  const CLOSE: byte := 41
  const SEMICOLON: byte := 59

  /** "NULL" */
  const NULL_TEXT: bytes := [78, 85, 76, 76]
  /** "REPLACE INTO " */
  const REPLACE_INTO: bytes := [82, 69, 80, 76, 65, 67, 69, 32, 73, 78, 84, 79, 32]
  /** "INSERT INTO " */
  const INSERT_INTO: bytes := [73, 78, 83, 69, 82, 84, 32, 73, 78, 84, 79, 32]
  /** "INSERT IGNORE INTO " */
  const INSERT_IGNORE_INTO: bytes := [73, 78, 83, 69, 82, 84, 32, 73, 71, 78, 79, 82, 69, 32, 73, 78, 84, 79, 32]
  /** " VALUES " */
  const VALUES: bytes := [32, 86, 65, 76, 85, 69, 83, 32]
  /** "ALTER TABLE " */
  const ALTER_TABLE: bytes := [65, 76, 84, 69, 82, 32, 84, 65, 66, 76, 69, 32]
  /** " DISABLE KEYS" */
  const DISABLE_KEYS: bytes := [32, 68, 73, 83, 65, 66, 76, 69, 32, 75, 69, 89, 83]
  /** " ENABLE KEYS" */
  const ENABLE_KEYS: bytes := [32, 69, 78, 65, 66, 76, 69, 32, 75, 69, 89, 83]
  /** "START TRANSACTION" */
  const START_TRANSACTION: bytes := [83, 84, 65, 82, 84, 32, 84, 82, 65, 78, 83, 65, 67, 84, 73, 79, 78]
  /** "COMMIT" */
  const COMMIT: bytes := [67, 79, 77, 77, 73, 84]

  /** `DRIZZLE_MAX_LINE_LENGTH` */
  const MAX_LINE_LENGTH: nat := 1024 * 1024 - 1025

  /** INT and BIGINT; BLOB and VARBINARY; the other types. */
  datatype Kind = Number | Binary | Characters

  datatype Options = Options(extended: bool, replace: bool, ignore: bool, autocommit: bool, disableKeys: bool)

  datatype Table = Table(name: bytes, kinds: seq<Kind>)

  type Row = seq<Value>

  // ---------------------------------------------------------------- what is written

  function Field(kind: Kind, v: Value): bytes {
    match v
    case Null => NULL_TEXT
    case Text(d) => match kind
      case Number => d
      case Binary => HexLiteral(d)
      case Characters => Literal(d)
  }

  function Fields(kinds: seq<Kind>, row: Row): bytes
    requires |kinds| == |row|
  {
    if row == [] then []
    else Field(kinds[0], row[0]) + (if |row| > 1 then [COMMA] else []) + Fields(kinds[1..], row[1..])
  }

  predicate Shaped(t: Table, rows: seq<Row>) {
    forall i :: 0 <= i < |rows| ==> |rows[i]| == |t.kinds|
  }

  function Tuples(t: Table, rows: seq<Row>): bytes
    requires Shaped(t, rows)
  {
    if rows == [] then []
    else [OPEN] + Fields(t.kinds, rows[0]) + [CLOSE] + (if |rows| > 1 then [COMMA] else []) + Tuples(t, rows[1..])
  }

  function Verb(o: Options): bytes {
    if o.replace then REPLACE_INTO else if o.ignore then INSERT_IGNORE_INTO else INSERT_INTO
  }

  function Start(o: Options, t: Table): bytes {
    Verb(o) + QuotedName(t.name) + VALUES
  }

  /** One statement with its rows. */
  function Insert(o: Options, t: Table, rows: seq<Row>): bytes
    requires Shaped(t, rows)
  {
    Start(o, t) + Tuples(t, rows)
  }

  // ---------------------------------------------------------------- grouping

  function Size(v: Value): nat {
    if v.Text? then |v.data| else 0
  }

  function RowSize(row: Row): nat {
    if row == [] then 0 else Size(row[0]) + RowSize(row[1..])
  }

  /** What writing a field adds to the byte counter, besides its size. */
  function FieldExtra(kind: Kind, v: Value): nat {
    if v.Null? || kind.Number? then 0 else if kind.Binary? then |v.data| + 3 else 3
  }

  function RowExtra(kinds: seq<Kind>, row: Row): nat
    requires |kinds| == |row|
  {
    if row == [] then 0 else FieldExtra(kinds[0], row[0]) + RowExtra(kinds[1..], row[1..])
  }

  /** What a row adds to the byte counter, as the first or a later one of its statement. */
  function CountedFor(t: Table, first: bool, row: Row): nat
    requires |row| == |t.kinds|
  {
    RowSize(row) + RowExtra(t.kinds, row) + if first then 28 + |Doubled(BACKTICK, t.name)| else 3
  }

  /** The byte counter behind the rows of one statement. */
  function Cost(t: Table, rows: seq<Row>): nat
    requires Shaped(t, rows)
  {
    if rows == [] then 0
    else Cost(t, rows[..|rows| - 1]) + CountedFor(t, |rows| == 1, rows[|rows| - 1])
  }

  /** The statement ends behind these rows. */
  predicate Full(o: Options, t: Table, rows: seq<Row>)
    requires Shaped(t, rows)
  {
    rows != [] && (!o.extended || Cost(t, rows) >= MAX_LINE_LENGTH)
  }

  /** The rows of each statement, when `open` are in an open one. */
  function Groups(o: Options, t: Table, open: seq<Row>, rows: seq<Row>): (gs: seq<seq<Row>>)
    requires Shaped(t, open) && Shaped(t, rows)
    ensures forall g :: g in gs ==> Shaped(t, g)
    decreases |rows|
  {
    if rows == [] then (if open == [] then [] else [open])
    else
      var g := open + [rows[0]];
      if Full(o, t, g) then [g] + Groups(o, t, [], rows[1..]) else Groups(o, t, g, rows[1..])
  }

  function Flat(gs: seq<seq<Row>>): seq<Row> {
    if gs == [] then [] else gs[0] + Flat(gs[1..])
  }

  /** Law: grouping loses no row, repeats none, and keeps their order. */
  lemma {:induction false} GroupsKeepRows(o: Options, t: Table, open: seq<Row>, rows: seq<Row>)
    requires Shaped(t, open) && Shaped(t, rows)
    ensures Flat(Groups(o, t, open, rows)) == open + rows
    decreases |rows|
  {
    if rows != [] {
      var g := open + [rows[0]];
      assert g + rows[1..] == open + rows;
      if Full(o, t, g) {
        GroupsKeepRows(o, t, [], rows[1..]);
        hide Full;
        assert ([g] + Groups(o, t, [], rows[1..]))[1..] == Groups(o, t, [], rows[1..]);
      } else {
        GroupsKeepRows(o, t, g, rows[1..]);
      }
    } else if open != [] {
      assert [open][1..] == [];
    }
  }

  predicate PrefixesOpen(o: Options, t: Table, g: seq<Row>)
    requires Shaped(t, g)
  {
    forall k :: 0 <= k < |g| ==> !Full(o, t, g[..k])
  }

  /** Every group has a row and is full at no row but its last; only the last group may stay unfilled. */
  predicate EndWhenFull(o: Options, t: Table, gs: seq<seq<Row>>) {
    gs == [] || (
      && gs[0] != [] && Shaped(t, gs[0]) && PrefixesOpen(o, t, gs[0])
      && (|gs| > 1 ==> Full(o, t, gs[0]))
      && EndWhenFull(o, t, gs[1..]))
  }

  /** Law: a statement ends exactly at the first row that fills it, or at the last row of the table. */
  lemma {:induction false} GroupsEndWhenFull(o: Options, t: Table, open: seq<Row>, rows: seq<Row>)
    requires Shaped(t, open) && Shaped(t, rows) && PrefixesOpen(o, t, open) && !Full(o, t, open)
    ensures EndWhenFull(o, t, Groups(o, t, open, rows))
    decreases |rows|
  {
    if rows != [] {
      var g := open + [rows[0]];
      forall k | 0 <= k < |g| ensures !Full(o, t, g[..k]) {
        assert g[..k] == if k < |open| then open[..k] else open;
      }
      if Full(o, t, g) {
        GroupsEndWhenFull(o, t, [], rows[1..]);
        assert ([g] + Groups(o, t, [], rows[1..]))[1..] == Groups(o, t, [], rows[1..]);
      } else {
        GroupsEndWhenFull(o, t, g, rows[1..]);
      }
    }
  }

  // ---------------------------------------------------------------- the text of a dump

  function Inserts(o: Options, t: Table, gs: seq<seq<Row>>): (sts: seq<bytes>)
    requires forall g :: g in gs ==> Shaped(t, g)
    ensures |sts| == |gs|
  {
    if gs == [] then [] else [Insert(o, t, gs[0])] + Inserts(o, t, gs[1..])
  }

  /** Statements as lines. */
  function Joined(sts: seq<bytes>): bytes {
    if sts == [] then [] else sts[0] + [SEMICOLON, NEWLINE] + Joined(sts[1..])
  }

  lemma {:induction false} JoinedAppend(a: seq<bytes>, b: seq<bytes>)
    ensures Joined(a + b) == Joined(a) + Joined(b)
  {
    if a == [] {
      assert a + b == b;
    } else {
      JoinedAppend(a[1..], b);
      assert (a + b)[1..] == a[1..] + b && (a + b)[0] == a[0];
    }
  }

  lemma JoinedOne(st: bytes)
    ensures Joined([st]) == st + [SEMICOLON, NEWLINE]
  {
    assert [st][1..] == [];
  }

  function Before(o: Options, t: Table): seq<bytes> {
    (if o.disableKeys then [ALTER_TABLE + QuotedName(t.name) + DISABLE_KEYS] else [])
    + (if o.autocommit then [START_TRANSACTION] else [])
  }

  /** The closing statements; the name is quoted without doubling its quotes. */
  function After(o: Options, t: Table): seq<bytes> {
    (if o.autocommit then [COMMIT] else [])
    + (if o.disableKeys then [ALTER_TABLE + [BACKTICK] + t.name + [BACKTICK] + ENABLE_KEYS] else [])
  }

  /** The statements that a dump of these rows consists of. */
  function Statements(o: Options, t: Table, rows: seq<Row>): seq<bytes>
    requires Shaped(t, rows)
  {
    if rows == [] then [] else Before(o, t) + Inserts(o, t, Groups(o, t, [], rows)) + After(o, t)
  }

  function DumpText(o: Options, t: Table, rows: seq<Row>): bytes
    requires Shaped(t, rows)
  {
    if rows == [] then [] else Joined(Statements(o, t, rows)) + [NEWLINE]
  }

  // ---------------------------------------------------------------- the writer

  method FieldSizes(row: Row) returns (n: nat)
    ensures n == RowSize(row)
  {
    n := 0;
    var i := 0;
    while i < |row|
      invariant i <= |row|
      invariant n + RowSize(row[i..]) == RowSize(row)
    {
      assert row[i..][1..] == row[i + 1..];
      n := n + if row[i].Text? then |row[i].data| else 0;
      i := i + 1;
    }
  }

  method WriteField(kind: Kind, v: Value) returns (text: bytes, extra: nat)
    ensures text == Field(kind, v) && extra == FieldExtra(kind, v)
  {
    if v.Null? {
      return NULL_TEXT, 0;
    }
    if !kind.Number? {
      extra := 0;
      if kind.Binary? {
        text := ConvertHex(v.data);
        extra := |v.data|;
      } else {
        text := EscapeText(v.data);
        text := [QUOTE] + text + [QUOTE];
      }
      extra := extra + 3;
    } else {
      text, extra := v.data, 0;
    }
  }

  lemma FieldsStep(kinds: seq<Kind>, row: Row, i: nat, text: bytes)
    requires i < |row| == |kinds|
    ensures text + Fields(kinds[i..], row[i..])
         == text + Field(kinds[i], row[i]) + (if i != |row| - 1 then [COMMA] else []) + Fields(kinds[i + 1..], row[i + 1..])
    ensures RowExtra(kinds[i..], row[i..]) == FieldExtra(kinds[i], row[i]) + RowExtra(kinds[i + 1..], row[i + 1..])
  {
    assert kinds[i..][1..] == kinds[i + 1..] && row[i..][1..] == row[i + 1..];
    assert kinds[i..][0] == kinds[i] && row[i..][0] == row[i];
  }

  /** The column loop. */
  method WriteFields(kinds: seq<Kind>, row: Row) returns (text: bytes, extra: nat)
    requires |kinds| == |row|
    ensures text == Fields(kinds, row) && extra == RowExtra(kinds, row)
  {
    text, extra := [], 0;
    var i := 0;
    assert kinds[0..] == kinds && row[0..] == row && Fields([], []) == [] && RowExtra([], []) == 0;
    hide Fields, RowExtra, Field, FieldExtra;
    while i < |row|
      invariant i <= |row|
      invariant text + Fields(kinds[i..], row[i..]) == Fields(kinds, row)
      invariant extra + RowExtra(kinds[i..], row[i..]) == RowExtra(kinds, row)
    {
      FieldsStep(kinds, row, i, text);
      var field, more := WriteField(kinds[i], row[i]);
      text, extra := text + field, extra + more;
      if i != |kinds| - 1 {
        text := text + [COMMA];
      }
      i := i + 1;
    }
    assert kinds[i..] == [] && row[i..] == [];
  }

  /** What stands behind `before` while the rows `open` are in an unfinished statement. */
  predicate Unfinished(o: Options, t: Table, os: bytes, before: bytes, open: seq<Row>)
    requires Shaped(t, open)
  {
    if open == [] then os == before else os + [CLOSE] == before + Insert(o, t, open)
  }

  lemma JoinTuples(first: bytes, more: bytes, sep: bytes, last: bytes)
    ensures first + [COMMA] + (more + sep + last) == first + [COMMA] + more + sep + last
    ensures more == [] && sep == [] ==> first + [COMMA] + (more + sep + last) == first + sep + more + [COMMA] + last
  {
  }

  lemma {:induction false} TuplesAppend(t: Table, rows: seq<Row>, row: Row)
    requires Shaped(t, rows + [row]) && Shaped(t, rows)
    ensures Tuples(t, rows + [row]) == Tuples(t, rows) + (if rows == [] then [] else [COMMA]) + ([OPEN] + Fields(t.kinds, (rows + [row])[|rows|]) + [CLOSE])
    decreases |rows|
  {
    var all := rows + [row];
    hide Fields;
    if rows == [] {
      assert all[1..] == [] && Tuples(t, all[1..]) == [] && Tuples(t, rows) == [];
      var last := [OPEN] + Fields(t.kinds, row) + [CLOSE];
      assert Tuples(t, all) == last + [] + [];
      assert last + [] + [] == last == [] + [] + last;
    } else {
      assert all[1..] == rows[1..] + [row] && all[1..][|rows| - 1] == row && all[0] == rows[0];
      TuplesAppend(t, rows[1..], row);
      assert |rows| == 1 ==> rows[1..] == [] && Tuples(t, rows[1..]) == [];
      var first, last := [OPEN] + Fields(t.kinds, rows[0]) + [CLOSE], [OPEN] + Fields(t.kinds, row) + [CLOSE];
      var more, sep := Tuples(t, rows[1..]), if |rows| > 1 then [COMMA] else [];
      assert Tuples(t, rows) == first + sep + more && Tuples(t, all) == first + [COMMA] + Tuples(t, all[1..]);
      hide Tuples;
      JoinTuples(first, more, sep, last);
    }
  }

  /** What is written before the fields of a row. */
  function Lead(o: Options, t: Table, first: bool): bytes {
    if first then Start(o, t) + [OPEN] else [CLOSE, COMMA, OPEN]
  }

  lemma Regroup(a: bytes, b: bytes, f: bytes)
    ensures a + (b + [OPEN]) + f + [CLOSE] == a + (b + ([OPEN] + f + [CLOSE]))
    ensures a + [CLOSE, COMMA, OPEN] + f + [CLOSE] == a + [CLOSE] + [COMMA] + ([OPEN] + f + [CLOSE])
    ensures a + b + [COMMA] + ([OPEN] + f + [CLOSE]) == a + (b + [COMMA] + ([OPEN] + f + [CLOSE]))
  {
  }

  lemma InsertAppend(o: Options, t: Table, open: seq<Row>, row: Row)
    requires Shaped(t, open) && |row| == |t.kinds|
    ensures Shaped(t, open + [row])
    ensures Insert(o, t, open + [row]) == (if open == [] then Start(o, t) else Insert(o, t, open) + [COMMA]) + ([OPEN] + Fields(t.kinds, row) + [CLOSE])
  {
    TuplesAppend(t, open, row);
    assert open == [] ==> Tuples(t, open) == [];
    hide Tuples, Fields, Start;
    var start, tuples, last := Start(o, t), Tuples(t, open), [OPEN] + Fields(t.kinds, row) + [CLOSE];
    if open != [] {
      ThreeTimes(start, tuples, [COMMA], last);
    } else {
      assert [] + [] + last == last;
    }
  }

  lemma ThreeTimes(a: bytes, b: bytes, c: bytes, d: bytes)
    ensures a + (b + c + d) == a + b + c + d
  {
  }

  lemma RowJoins(o: Options, t: Table, os: bytes, before: bytes, open: seq<Row>, row: Row)
    requires Shaped(t, open) && |row| == |t.kinds| && Unfinished(o, t, os, before, open)
    ensures Shaped(t, open + [row])
    ensures Unfinished(o, t, os + Lead(o, t, open == []) + Fields(t.kinds, row), before, open + [row])
  {
    InsertAppend(o, t, open, row);
    hide Insert, Fields, Start;
    if open == [] {
      Regroup(os, Start(o, t), Fields(t.kinds, row));
    } else {
      Regroup(os, [], Fields(t.kinds, row));
      Regroup(before, Insert(o, t, open), Fields(t.kinds, row));
    }
  }

  lemma RowCounts(t: Table, open: seq<Row>, row: Row)
    requires Shaped(t, open) && |row| == |t.kinds|
    ensures Shaped(t, open + [row]) && Cost(t, open + [row]) == Cost(t, open) + CountedFor(t, open == [], row)
  {
    assert (open + [row])[..|open|] == open;
  }

  lemma EndRegroup(os: bytes, before: bytes, i: bytes, more: bytes)
    requires os + [CLOSE] == before + i
    ensures before + (i + [SEMICOLON, NEWLINE] + more) == os + [CLOSE, SEMICOLON, NEWLINE] + more
  {
    assert before + (i + [SEMICOLON, NEWLINE] + more) == before + i + [SEMICOLON, NEWLINE] + more;
    assert os + [CLOSE] + [SEMICOLON, NEWLINE] == os + [CLOSE, SEMICOLON, NEWLINE];
  }

  /** The statement with these rows is complete; the others follow. */
  lemma StatementEnds(o: Options, t: Table, os: bytes, before: bytes, open: seq<Row>, gs: seq<seq<Row>>)
    requires Shaped(t, open) && open != [] && Unfinished(o, t, os, before, open) && forall g :: g in gs ==> Shaped(t, g)
    ensures var more := Inserts(o, t, gs); before + Joined(Inserts(o, t, [open] + gs)) == os + [CLOSE, SEMICOLON, NEWLINE] + Joined(more)
  {
    var i, more := Insert(o, t, open), Inserts(o, t, gs);
    assert ([open] + gs)[1..] == gs;
    assert Inserts(o, t, [open] + gs) == [i] + more;
    hide Insert, Inserts, Joined;
    JoinedOne(i);
    JoinedAppend([i], more);
    EndRegroup(os, before, i, Joined(more));
  }

  lemma GroupsStep(o: Options, t: Table, open: seq<Row>, rows: seq<Row>, i: nat)
    requires Shaped(t, open) && Shaped(t, rows) && i < |rows|
    ensures Shaped(t, open + [rows[i]]) && Shaped(t, rows[i..]) && Shaped(t, rows[i + 1..])
    ensures var g := open + [rows[i]];
      Groups(o, t, open, rows[i..]) == if Full(o, t, g) then [g] + Groups(o, t, [], rows[i + 1..]) else Groups(o, t, g, rows[i + 1..])
  {
    assert rows[i..][1..] == rows[i + 1..] && rows[i..][0] == rows[i];
  }

  ghost function Total(o: Options, t: Table, open: seq<Row>, rows: seq<Row>): bytes
    requires Shaped(t, open) && Shaped(t, rows)
  {
    Joined(Inserts(o, t, Groups(o, t, open, rows)))
  }

  /** Behind a row: either its statement goes on, or it ends here. */
  lemma TotalStep(o: Options, t: Table, os: bytes, before: bytes, open: seq<Row>, rows: seq<Row>, i: nat)
    requires Shaped(t, open) && Shaped(t, rows) && i < |rows|
    requires Shaped(t, open + [rows[i]]) && Unfinished(o, t, os, before, open + [rows[i]])
    ensures Shaped(t, rows[i..]) && Shaped(t, rows[i + 1..])
    ensures var g := open + [rows[i]];
      before + Total(o, t, open, rows[i..])
      == if Full(o, t, g) then os + [CLOSE, SEMICOLON, NEWLINE] + Total(o, t, [], rows[i + 1..]) else before + Total(o, t, g, rows[i + 1..])
  {
    GroupsStep(o, t, open, rows, i);
    var g := open + [rows[i]];
    hide Groups, Full, Inserts, Unfinished;
    StatementEnds(o, t, os, before, g, Groups(o, t, [], rows[i + 1..]));
  }

  lemma TotalEnd(o: Options, t: Table, os: bytes, before: bytes, open: seq<Row>)
    requires Shaped(t, open) && Unfinished(o, t, os, before, open)
    ensures before + Total(o, t, open, []) == if open == [] then os else os + [CLOSE, SEMICOLON, NEWLINE]
  {
    if open != [] {
      StatementEnds(o, t, os, before, open, []);
      assert [open] + [] == [open];
    }
  }

  /** The row loop. */
  method WriteStatements(o: Options, t: Table, displayName: bytes, rows: seq<Row>) returns (os: bytes)
    requires Shaped(t, rows) && displayName == Doubled(BACKTICK, t.name)
    ensures os == Joined(Inserts(o, t, Groups(o, t, [], rows)))
  {
    hide Doubled, Fields, Groups, Inserts, Joined, Cost, Insert, RowSize, RowExtra;
    var newInsert, first, byteCounter := true, true, 0;
    os := [];
    ghost var open: seq<Row>, before: bytes := [], [];
    assert rows[0..] == rows && Cost(t, []) == 0 by { NothingCounted(t); }
    var i := 0;
    while i < |rows|
      invariant i <= |rows| && Shaped(t, open) && Shaped(t, rows[i..])
      invariant newInsert == (open == []) && (first ==> open == []) && (!o.extended ==> open == [])
      invariant byteCounter == Cost(t, open)
      invariant Unfinished(o, t, os, before, open)
      invariant before + Total(o, t, open, rows[i..]) == Total(o, t, [], rows)
    {
      var row := rows[i];
      RowJoins(o, t, os, before, open, row);
      RowCounts(t, open, row);
      hide Unfinished, Total;
      ghost var lead := Lead(o, t, open == []);
      ghost var all := os + lead + Fields(t.kinds, row);
      ghost var count := byteCounter + CountedFor(t, open == [], row);
      TotalStep(o, t, all, before, open, rows, i);
      var sizes := FieldSizes(row);
      byteCounter := byteCounter + sizes;
      if !first && !newInsert {
        os := os + if o.extended then [CLOSE, COMMA, OPEN] else [CLOSE, SEMICOLON, NEWLINE];
        byteCounter := byteCounter + 3;
      } else {
        first := false;
      }
      if newInsert {
        os := os + WrittenStart(o, t, displayName);
        byteCounter := byteCounter + 28 + |displayName|;
        if o.extended {
          newInsert := false;
        }
      }
      var text, extra := WriteFields(t.kinds, row);
      os, byteCounter := os + text, byteCounter + extra;
      assert os == all && byteCounter == count;
      open := open + [row];
      if (o.extended && byteCounter >= MAX_LINE_LENGTH) || !o.extended {
        os := os + [CLOSE, SEMICOLON, NEWLINE];
        newInsert, byteCounter := true, 0;
        open, before := [], os;
      }
      i := i + 1;
    }
    assert rows[i..] == [];
    TotalEnd(o, t, os, before, open);
    if !newInsert {
      os := os + [CLOSE, SEMICOLON, NEWLINE];
    }
  }

  lemma NothingCounted(t: Table)
    ensures Cost(t, []) == 0
  {
  }

  function WrittenStart(o: Options, t: Table, displayName: bytes): (w: bytes)
    ensures displayName == Doubled(BACKTICK, t.name) ==> w == Lead(o, t, true)
  {
    Verb(o) + ([BACKTICK] + displayName + [BACKTICK]) + VALUES + [OPEN]
  }

  function Line(st: bytes): bytes {
    st + [SEMICOLON, NEWLINE]
  }

  lemma JoinedParts(o: Options, t: Table, inserts: seq<bytes>)
    ensures Joined(Before(o, t) + inserts + After(o, t)) ==
      (if o.disableKeys then Line(ALTER_TABLE + QuotedName(t.name) + DISABLE_KEYS) else [])
      + (if o.autocommit then Line(START_TRANSACTION) else [])
      + Joined(inserts)
      + (if o.autocommit then Line(COMMIT) else [])
      + (if o.disableKeys then Line(ALTER_TABLE + [BACKTICK] + t.name + [BACKTICK] + ENABLE_KEYS) else [])
  {
    JoinedAppend(Before(o, t) + inserts, After(o, t));
    JoinedAppend(Before(o, t), inserts);
    var disable := if o.disableKeys then [ALTER_TABLE + QuotedName(t.name) + DISABLE_KEYS] else [];
    var begin := if o.autocommit then [START_TRANSACTION] else [];
    var commit := if o.autocommit then [COMMIT] else [];
    var enable := if o.disableKeys then [ALTER_TABLE + [BACKTICK] + t.name + [BACKTICK] + ENABLE_KEYS] else [];
    JoinedAppend(disable, begin);
    JoinedAppend(commit, enable);
    JoinedOne(START_TRANSACTION);
    JoinedOne(COMMIT);
    JoinedOne(ALTER_TABLE + QuotedName(t.name) + DISABLE_KEYS);
    JoinedOne(ALTER_TABLE + [BACKTICK] + t.name + [BACKTICK] + ENABLE_KEYS);
    assert Joined([]) == [];
    hide Joined, QuotedName;
    FiveParts(Joined(disable), Joined(begin), Joined(inserts), Joined(commit), Joined(enable));
  }

  lemma FiveParts(a: bytes, b: bytes, c: bytes, d: bytes, e: bytes)
    ensures (a + b) + c + (d + e) == a + b + c + d + e
  {
  }

  /** `operator<<` for `DrizzleDumpData` */
  method DumpData(o: Options, t: Table, rows: seq<Row>) returns (os: bytes)
    requires Shaped(t, rows)
    ensures os == DumpText(o, t, rows)
  {
    os := [];
    if |rows| < 1 {
      return;
    }
    var displayName := CleanTableName(t.name);
    assert QuotedName(t.name) == [BACKTICK] + displayName + [BACKTICK];
    JoinedParts(o, t, Inserts(o, t, Groups(o, t, [], rows)));
    hide Joined, Inserts, Groups, QuotedName, Before, After, Line;
    if o.disableKeys {
      os := Line(ALTER_TABLE + ([BACKTICK] + displayName + [BACKTICK]) + DISABLE_KEYS);
    }
    os := os + if o.autocommit then Line(START_TRANSACTION) else [];
    var inserts := WriteStatements(o, t, displayName, rows);
    os := os + inserts;
    os := os + if o.autocommit then Line(COMMIT) else [];
    os := os + if o.disableKeys then Line(ALTER_TABLE + [BACKTICK] + t.name + [BACKTICK] + ENABLE_KEYS) else [];
    os := os + [NEWLINE];
  }
}
