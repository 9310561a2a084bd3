/**
  The Resty-DBD-Stream format, version 0.0.3: what the atom writers of
  ngx_http_drizzle_output.c put on the wire for a whole result set, and a
  decoder written from the format description in the module's README.
 */
module Rds {

  type byte = x: int | 0 <= x < 256
  type bytes = seq<byte>
  type uint16 = x: int | 0 <= x < 0x1_0000
  type uint64 = x: int | 0 <= x < 0x1_0000_0000_0000_0000

  const TWO_TO_THE_16: int := 0x1_0000
  const TWO_TO_THE_32: int := 0x1_0000_0000
  const RDS_VERSION: int := 3

  datatype Option<+T> = None | Some(value: T)
  {
    predicate IsFailure() { None? }
    function PropagateFailure<U>(): Option<U> requires None? { None }
    function Extract(): T requires Some? { value }
  }

  // ---------------------------------------------------------------- result sets

  datatype Value = Null | Text(data: bytes)

  datatype Column = Column(driverType: uint16, name: bytes)

  datatype Head = Head(errorCode: uint16, errorText: bytes, affectedRows: uint64, insertId: uint64, columnCount: uint16)

  /** What the server answers to one query. */
  datatype ResultSet = ResultSet(head: Head, columns: seq<Column>, rows: seq<seq<Value>>)

  predicate WellFormed(rs: ResultSet) {
    && rs.head.columnCount == |rs.columns|
    && (rs.columns == [] ==> rs.rows == [])
    && forall row :: row in rs.rows ==> |row| == |rs.columns|
  }

  // ---------------------------------------------------------------- machine words

  function Pow256(width: nat): nat {
    if width == 0 then 1 else 256 * Pow256(width - 1)
  }

  /** The `width` bytes a C assignment of `n` to an unsigned integer of that width stores. */
  function Word(big: bool, width: nat, n: nat): (w: bytes)
    ensures |w| == width
  {
    if width == 0 then []
    else if big then Word(big, width - 1, n / 256) + [n % 256]
    else [n % 256] + Word(big, width - 1, n / 256)
  }

  function Unword(big: bool, w: bytes): nat {
    if w == [] then 0
    else if big then 256 * Unword(big, w[..|w| - 1]) + w[|w| - 1]
    else w[0] + 256 * Unword(big, w[1..])
  }

  lemma {:induction false} WordKeepsLowBytes(big: bool, width: nat, n: nat)
    ensures Pow256(width) > 0 && Unword(big, Word(big, width, n)) == n % Pow256(width)
  {
    if width > 0 {
      WordKeepsLowBytes(big, width - 1, n / 256);
      var w, p := Word(big, width, n), Pow256(width - 1);
      if big {
        assert w[..|w| - 1] == Word(big, width - 1, n / 256);
      } else {
        assert w[1..] == Word(big, width - 1, n / 256);
      }
      SplitModulus(n, p);
    }
  }

  lemma SplitModulus(n: nat, p: int)
    requires p > 0
    ensures 256 * (n / 256 % p) + n % 256 == n % (256 * p)
  {
    var q, d := n / 256, n % 256;
    var r := 256 * (q % p) + d;
    assert n == 256 * (p * (q / p) + q % p) + d;
    assert n == (256 * p) * (q / p) + r;
    assert 0 <= r < 256 * p;
    ModulusOf(n, 256 * p, q / p, r);
  }

  lemma ModulusOf(n: int, m: int, q: int, r: int)
    requires m > 0 && n == m * q + r && 0 <= r < m
    ensures n % m == r
  {
    var q', r' := n / m, n % m;
    assert n == m * q' + r';
    MultipleApart(m, q, q');
    MultipleApart(m, q', q);
  }

  lemma MultipleApart(m: int, a: int, b: int)
    requires m > 0
    ensures a > b ==> m * a >= m * b + m
  {
    if a > b {
      MultipleOf(m, a - b);
      Distributes(m, b, a - b);
    }
  }

  lemma Distributes(m: int, b: int, c: int)
    ensures m * (b + c) == m * b + m * c
  {
  }

  lemma {:induction false} MultipleOf(m: int, k: int)
    requires m > 0 && k >= 1
    ensures m * k >= m
    decreases k
  {
    if k > 1 {
      MultipleOf(m, k - 1);
      Distributes(m, k - 1, 1);
    }
  }

  lemma WordRoundTrip(big: bool, width: nat, n: nat)
    requires n < Pow256(width)
    ensures Unword(big, Word(big, width, n)) == n
  {
    WordKeepsLowBytes(big, width, n);
    ModulusOf(n, Pow256(width), 0, n);
  }

  lemma WordSizes()
    ensures Pow256(1) == 0x100 && Pow256(2) == TWO_TO_THE_16 && Pow256(4) == TWO_TO_THE_32
    ensures Pow256(8) == 0x1_0000_0000_0000_0000
  {
    assert Pow256(3) == 0x100_0000;
    assert Pow256(5) == 0x100_0000_0000;
    assert Pow256(6) == 0x1_0000_0000_0000;
    assert Pow256(7) == 0x100_0000_0000_0000;
  }

  // ---------------------------------------------------------------- column types

  /** `ngx_http_drizzle_std_col_type`: the upper two bits are the rough type. */
  function StdColumnType(driverType: uint16): uint16 {
    match driverType
    case 0 => 11 + 0x4000      // DECIMAL: decimal
    case 1 => 13               // TINY: smallint
    case 2 => 13               // SHORT: smallint
    case 3 => 9                // LONG: integer
    case 4 => 12 + 0x4000      // FLOAT: real
    case 5 => 8 + 0x4000       // DOUBLE: double
    case 6 => 0x8000           // NULL: unknown
    case 7 => 17 + 0x8000      // TIMESTAMP: timestamp
    case 8 => 1                // LONGLONG: bigint
    case 9 => 9                // INT24: integer
    case 10 => 17 + 0x8000     // DATE: timestamp
    case 11 => 15 + 0x8000     // TIME: time
    case 12 => 17 + 0x8000     // DATETIME: timestamp
    case 13 => 13              // YEAR: smallint
    case 14 => 17 + 0x8000     // NEWDATE: timestamp
    case 15 => 6 + 0x8000      // VARCHAR: varchar
    case 16 => 2 + 0x8000      // BIT: bit
    case 246 => 11 + 0x4000    // NEWDECIMAL: decimal
    case 247 => 6 + 0x8000     // ENUM: varchar
    case 248 => 6 + 0x8000     // SET: varchar
    case 249 => 19 + 0x8000    // TINY_BLOB: blob
    case 250 => 19 + 0x8000    // MEDIUM_BLOB: blob
    case 251 => 19 + 0x8000    // LONG_BLOB: blob
    case 252 => 19 + 0x8000    // BLOB: blob
    case 253 => 6 + 0x8000     // VAR_STRING: varchar
    case 254 => 6 + 0x8000     // STRING: varchar
    case 255 => 6 + 0x8000     // GEOMETRY: varchar
    case _ => 0x8000           // unknown
  }

  // ---------------------------------------------------------------- the encoder

  /** A length stored in 16 bits, and the part of the text the length covers. */
  function Counted(big: bool, text: bytes): bytes {
    Word(big, 2, |text| % TWO_TO_THE_16) + text[..|text| % TWO_TO_THE_16]
  }

  function HeaderAtom(big: bool, h: Head): bytes {
    [if big then 1 else 0] + Word(big, 4, RDS_VERSION) + [0]
    + Word(big, 2, h.errorCode) + Word(big, 2, h.errorCode) + Counted(big, h.errorText)
    + Word(big, 8, h.affectedRows) + Word(big, 8, h.insertId) + Word(big, 2, h.columnCount)
  }

  function ColumnAtom(big: bool, c: Column): bytes {
    Word(big, 2, StdColumnType(c.driverType)) + Word(big, 2, c.driverType) + Counted(big, c.name)
  }

  /** The 32-bit length in front of a field; all ones stand for NULL. */
  function FieldLength(big: bool, v: Value): bytes {
    Word(big, 4, if v.Null? then TWO_TO_THE_32 - 1 else |v.data| % TWO_TO_THE_32)
  }

  function FieldData(v: Value): bytes {
    if v.Null? then [] else v.data
  }

  function EncodeColumns(big: bool, cs: seq<Column>): bytes {
    if cs == [] then [] else ColumnAtom(big, cs[0]) + EncodeColumns(big, cs[1..])
  }

  function EncodeFields(big: bool, vs: seq<Value>): bytes {
    if vs == [] then [] else FieldLength(big, vs[0]) + FieldData(vs[0]) + EncodeFields(big, vs[1..])
  }

  function EncodeRows(big: bool, rows: seq<seq<Value>>): bytes {
    if rows == [] then [0] else [1] + EncodeFields(big, rows[0]) + EncodeRows(big, rows[1..])
  }

  /** The whole response: a header, and unless there are no columns, columns and rows. */
  function Encode(big: bool, rs: ResultSet): bytes {
    HeaderAtom(big, rs.head) + if rs.columns == [] then [] else EncodeColumns(big, rs.columns) + EncodeRows(big, rs.rows)
  }

  // ---------------------------------------------------------------- the documented decoder

  datatype WireColumn = WireColumn(stdType: nat, driverType: nat, name: bytes)

  datatype Message = Message(
    stdError: nat, driverError: nat, errorText: bytes, affectedRows: nat, insertId: nat,
    columns: seq<WireColumn>, rows: seq<seq<Value>>)

  function ReadWord(big: bool, width: nat, s: bytes): (r: Option<(nat, bytes)>)
    ensures r.Some? ==> |r.value.1| == |s| - width
  {
    if |s| < width then None else Some((Unword(big, s[..width]), s[width..]))
  }

  function ReadBytes(n: nat, s: bytes): (r: Option<(bytes, bytes)>)
    ensures r.Some? ==> |r.value.1| == |s| - n && |r.value.0| == n
  {
    if |s| < n then None else Some((s[..n], s[n..]))
  }

  /** The text length as it was read, so that its bound is visible. */
  function ReadCounted(big: bool, s: bytes): (r: Option<(bytes, bytes)>)
    ensures r.Some? ==> |r.value.1| <= |s|
  {
    var (n, s1) :- ReadWord(big, 2, s);
    ReadBytes(n, s1)
  }

  function DecodeColumn(big: bool, s: bytes): Option<(WireColumn, bytes)> {
    var (std, s1) :- ReadWord(big, 2, s);
    var (driver, s2) :- ReadWord(big, 2, s1);
    var (name, s3) :- ReadCounted(big, s2);
    Some((WireColumn(std, driver, name), s3))
  }

  function DecodeColumns(big: bool, n: nat, s: bytes): Option<(seq<WireColumn>, bytes)> {
    if n == 0 then Some(([], s)) else
    var (c, s1) :- DecodeColumn(big, s);
    var (cs, s2) :- DecodeColumns(big, n - 1, s1);
    Some(([c] + cs, s2))
  }

  function DecodeField(big: bool, s: bytes): (r: Option<(Value, bytes)>)
    ensures r.Some? ==> |r.value.1| < |s|
  {
    var (len, s1) :- ReadWord(big, 4, s);
    if len == TWO_TO_THE_32 - 1 then Some((Null, s1)) else
    var (data, s2) :- ReadBytes(len, s1);
    Some((Text(data), s2))
  }

  function DecodeFields(big: bool, n: nat, s: bytes): (r: Option<(seq<Value>, bytes)>)
    ensures r.Some? ==> |r.value.1| <= |s|
  {
    if n == 0 then Some(([], s)) else
    var (v, s1) :- DecodeField(big, s);
    var (vs, s2) :- DecodeFields(big, n - 1, s1);
    Some(([v] + vs, s2))
  }

  function DecodeRows(big: bool, n: nat, s: bytes): Option<(seq<seq<Value>>, bytes)>
    decreases |s|
  {
    if |s| == 0 || s[0] > 1 then None
    else if s[0] == 0 then Some(([], s[1..]))
    else
      var (row, s1) :- DecodeFields(big, n, s[1..]);
      var (rows, s2) :- DecodeRows(big, n, s1);
      Some(([row] + rows, s2))
  }

  /** Endianness, format version and result type. */
  function DecodePreamble(s: bytes): Option<(bool, bytes)> {
    var (endian, s1) :- ReadBytes(1, s);
    var big := endian[0] == 1;
    var (version, s2) :- ReadWord(big, 4, s1);
    var (kind, s3) :- ReadBytes(1, s2);
    if version != RDS_VERSION || kind[0] != 0 then None else Some((big, s3))
  }

  /** Error codes and error text. */
  function DecodeErrors(big: bool, s: bytes): Option<((nat, nat, bytes), bytes)> {
    var (stdError, s1) :- ReadWord(big, 2, s);
    var (driverError, s2) :- ReadWord(big, 2, s1);
    var (text, s3) :- ReadCounted(big, s2);
    Some(((stdError, driverError, text), s3))
  }

  /** Affected rows, insert id and column count. */
  function DecodeCounts(big: bool, s: bytes): Option<((nat, nat, nat), bytes)> {
    var (affected, s1) :- ReadWord(big, 8, s);
    var (insertId, s2) :- ReadWord(big, 8, s1);
    var (count, s3) :- ReadWord(big, 2, s2);
    Some(((affected, insertId, count), s3))
  }

  /** Reads one response from the front of a stream and returns what follows it. */
  function Decode(s: bytes): Option<(Message, bytes)> {
    var (big, s1) :- DecodePreamble(s);
    var (errors, s2) :- DecodeErrors(big, s1);
    var (counts, s3) :- DecodeCounts(big, s2);
    if counts.2 == 0 then
      Some((Message(errors.0, errors.1, errors.2, counts.0, counts.1, [], []), s3))
    else
      var (cs, s4) :- DecodeColumns(big, counts.2, s3);
      var (rows, s5) :- DecodeRows(big, counts.2, s4);
      Some((Message(errors.0, errors.1, errors.2, counts.0, counts.1, cs, rows), s5))
  }

  // ---------------------------------------------------------------- the round trip

  function Represent(rs: ResultSet): Message {
    Message(rs.head.errorCode, rs.head.errorCode, rs.head.errorText, rs.head.affectedRows, rs.head.insertId,
            RepresentColumns(rs.columns), rs.rows)
  }

  function RepresentColumns(cs: seq<Column>): seq<WireColumn> {
    seq(|cs|, i requires 0 <= i < |cs| => RepresentColumn(cs[i]))
  }

  predicate ValueFits(v: Value) {
    v.Text? ==> |v.data| < TWO_TO_THE_32 - 1
  }

  predicate RowsFit(rows: seq<seq<Value>>) {
    forall i, k :: 0 <= i < |rows| && 0 <= k < |rows[i]| ==> ValueFits(rows[i][k])
  }

  /** The widths of the format hold the lengths of the texts and the fields. */
  predicate MessageFits(m: Message) {
    && |m.errorText| < TWO_TO_THE_16
    && (forall i :: 0 <= i < |m.columns| ==> |m.columns[i].name| < TWO_TO_THE_16)
    && RowsFit(m.rows)
  }

  lemma ReadWordOf(big: bool, width: nat, n: nat, rest: bytes)
    requires n < Pow256(width)
    ensures ReadWord(big, width, Word(big, width, n) + rest) == Some((n, rest))
  {
    WordRoundTrip(big, width, n);
    var w := Word(big, width, n);
    assert (w + rest)[..width] == w && (w + rest)[width..] == rest;
  }

  lemma ReadBytesOf(b: bytes, rest: bytes)
    ensures ReadBytes(|b|, b + rest) == Some((b, rest))
  {
    assert (b + rest)[..|b|] == b && (b + rest)[|b|..] == rest;
  }

  lemma ReadCountedOf(big: bool, text: bytes, rest: bytes)
    requires |text| < TWO_TO_THE_16
    ensures ReadCounted(big, Counted(big, text) + rest) == Some((text, rest))
  {
    hide Word, Unword, Pow256;
    WordSizes();
    var w := Word(big, 2, |text|);
    assert text[..|text|] == text;
    assert Counted(big, text) + rest == w + (text + rest);
    ReadWordOf(big, 2, |text|, text + rest);
    ReadBytesOf(text, rest);
  }

  function RepresentColumn(c: Column): WireColumn {
    WireColumn(StdColumnType(c.driverType), c.driverType, c.name)
  }

  lemma DecodeColumnOf(big: bool, c: Column, rest: bytes)
    requires |c.name| < TWO_TO_THE_16
    ensures DecodeColumn(big, ColumnAtom(big, c) + rest) == Some((RepresentColumn(c), rest))
  {
    hide Word, Unword, ReadWord, ReadCounted, Counted, Pow256, StdColumnType;
    var std, driver, name := Word(big, 2, StdColumnType(c.driverType)), Word(big, 2, c.driverType), Counted(big, c.name);
    assert ColumnAtom(big, c) + rest == std + (driver + (name + rest));
    WordSizes();
    ReadWordOf(big, 2, StdColumnType(c.driverType), driver + (name + rest));
    ReadWordOf(big, 2, c.driverType, name + rest);
    ReadCountedOf(big, c.name, rest);
  }

  lemma {:induction false} DecodeColumnsOf(big: bool, cs: seq<Column>, rest: bytes)
    requires forall i :: 0 <= i < |cs| ==> |cs[i].name| < TWO_TO_THE_16
    ensures DecodeColumns(big, |cs|, EncodeColumns(big, cs) + rest) == Some((RepresentColumns(cs), rest))
  {
    hide DecodeColumn, ColumnAtom, RepresentColumn;
    if cs == [] {
      assert EncodeColumns(big, cs) + rest == rest;
    } else {
      var tail := EncodeColumns(big, cs[1..]) + rest;
      assert EncodeColumns(big, cs) + rest == ColumnAtom(big, cs[0]) + tail;
      DecodeColumnOf(big, cs[0], tail);
      DecodeColumnsOf(big, cs[1..], rest);
      assert RepresentColumns(cs) == [RepresentColumn(cs[0])] + RepresentColumns(cs[1..]);
    }
  }

  lemma DecodeFieldOf(big: bool, v: Value, rest: bytes)
    requires ValueFits(v)
    ensures DecodeField(big, FieldLength(big, v) + FieldData(v) + rest) == Some((v, rest))
  {
    hide Word, Unword, ReadWord, ReadBytes, Pow256;
    WordSizes();
    assert FieldLength(big, v) + FieldData(v) + rest == FieldLength(big, v) + (FieldData(v) + rest);
    if v.Null? {
      ReadWordOf(big, 4, TWO_TO_THE_32 - 1, FieldData(v) + rest);
      assert FieldData(v) + rest == rest;
    } else {
      ReadWordOf(big, 4, |v.data|, v.data + rest);
      ReadBytesOf(v.data, rest);
    }
  }

  lemma {:induction false} DecodeFieldsOf(big: bool, vs: seq<Value>, rest: bytes)
    requires forall k :: 0 <= k < |vs| ==> ValueFits(vs[k])
    ensures DecodeFields(big, |vs|, EncodeFields(big, vs) + rest) == Some((vs, rest))
  {
    hide DecodeField, FieldLength, FieldData;
    if vs == [] {
      assert EncodeFields(big, vs) + rest == rest;
    } else {
      var tail := EncodeFields(big, vs[1..]) + rest;
      assert EncodeFields(big, vs) + rest == FieldLength(big, vs[0]) + FieldData(vs[0]) + tail;
      DecodeFieldOf(big, vs[0], tail);
      DecodeFieldsOf(big, vs[1..], rest);
      assert [vs[0]] + vs[1..] == vs;
    }
  }

  lemma {:induction false} DecodeRowsOf(big: bool, n: nat, rows: seq<seq<Value>>, rest: bytes)
    requires RowsFit(rows) && forall row :: row in rows ==> |row| == n
    ensures DecodeRows(big, n, EncodeRows(big, rows) + rest) == Some((rows, rest))
  {
    hide DecodeFields, EncodeFields, ValueFits;
    var s := EncodeRows(big, rows) + rest;
    if rows == [] {
      assert s[1..] == rest;
    } else {
      var tail := EncodeRows(big, rows[1..]) + rest;
      assert s[1..] == EncodeFields(big, rows[0]) + tail;
      assert rows[0] in rows;
      DecodeFieldsOf(big, rows[0], tail);
      DecodeRowsOf(big, n, rows[1..], rest);
      assert [rows[0]] + rows[1..] == rows;
    }
  }

  function Preamble(big: bool): bytes {
    [if big then 1 else 0] + Word(big, 4, RDS_VERSION) + [0]
  }

  function Errors(big: bool, h: Head): bytes {
    Word(big, 2, h.errorCode) + Word(big, 2, h.errorCode) + Counted(big, h.errorText)
  }

  function Counts(big: bool, h: Head): bytes {
    Word(big, 8, h.affectedRows) + Word(big, 8, h.insertId) + Word(big, 2, h.columnCount)
  }

  lemma DecodePreambleOf(big: bool, rest: bytes)
    ensures DecodePreamble(Preamble(big) + rest) == Some((big, rest))
  {
    hide Word, Unword, Pow256;
    var endian: bytes := [if big then 1 else 0];
    assert Preamble(big) + rest == endian + (Word(big, 4, RDS_VERSION) + ([0] + rest));
    WordSizes();
    ReadBytesOf(endian, Word(big, 4, RDS_VERSION) + ([0] + rest));
    ReadWordOf(big, 4, RDS_VERSION, [0] + rest);
    ReadBytesOf([0], rest);
  }

  lemma DecodeErrorsOf(big: bool, h: Head, rest: bytes)
    requires |h.errorText| < TWO_TO_THE_16
    ensures DecodeErrors(big, Errors(big, h) + rest) == Some(((h.errorCode, h.errorCode, h.errorText), rest))
  {
    hide Word, Unword, ReadWord, ReadCounted, Counted, Pow256;
    var code, text := Word(big, 2, h.errorCode), Counted(big, h.errorText);
    assert Errors(big, h) + rest == code + (code + (text + rest));
    WordSizes();
    ReadWordOf(big, 2, h.errorCode, code + (text + rest));
    ReadWordOf(big, 2, h.errorCode, text + rest);
    ReadCountedOf(big, h.errorText, rest);
  }

  lemma DecodeCountsOf(big: bool, h: Head, rest: bytes)
    ensures DecodeCounts(big, Counts(big, h) + rest) == Some(((h.affectedRows, h.insertId, h.columnCount), rest))
  {
    hide Word, Unword, ReadWord, Pow256;
    var ids, count := Word(big, 8, h.insertId), Word(big, 2, h.columnCount);
    assert Counts(big, h) + rest == Word(big, 8, h.affectedRows) + (ids + (count + rest));
    WordSizes();
    ReadWordOf(big, 8, h.affectedRows, ids + (count + rest));
    ReadWordOf(big, 8, h.insertId, count + rest);
    ReadWordOf(big, 2, h.columnCount, rest);
  }

  lemma HeaderInParts(big: bool, h: Head, body: bytes)
    ensures HeaderAtom(big, h) + body == Preamble(big) + (Errors(big, h) + (Counts(big, h) + body))
  {
    assert HeaderAtom(big, h) == Preamble(big) + (Errors(big, h) + Counts(big, h));
  }

  /** The decoder on a header followed by anything. */
  lemma DecodeHeaderOf(big: bool, h: Head, body: bytes)
    requires |h.errorText| < TWO_TO_THE_16
    ensures var s := HeaderAtom(big, h) + body;
      && DecodePreamble(s) == Some((big, Errors(big, h) + (Counts(big, h) + body)))
      && DecodeErrors(big, Errors(big, h) + (Counts(big, h) + body)) ==
           Some(((h.errorCode, h.errorCode, h.errorText), Counts(big, h) + body))
      && DecodeCounts(big, Counts(big, h) + body) == Some(((h.affectedRows, h.insertId, h.columnCount), body))
  {
    HeaderInParts(big, h, body);
    DecodePreambleOf(big, Errors(big, h) + (Counts(big, h) + body));
    DecodeErrorsOf(big, h, Counts(big, h) + body);
    DecodeCountsOf(big, h, body);
  }

  lemma ColumnNamesFit(rs: ResultSet)
    requires MessageFits(Represent(rs))
    ensures forall i :: 0 <= i < |rs.columns| ==> |rs.columns[i].name| < TWO_TO_THE_16
  {
    forall i | 0 <= i < |rs.columns|
      ensures |rs.columns[i].name| < TWO_TO_THE_16
    {
      assert Represent(rs).columns[i] == RepresentColumn(rs.columns[i]);
    }
  }

  lemma EncodeInParts(big: bool, rs: ResultSet, rest: bytes)
    ensures rs.columns == [] ==> Encode(big, rs) + rest == HeaderAtom(big, rs.head) + rest
    ensures rs.columns != [] ==>
      Encode(big, rs) + rest == HeaderAtom(big, rs.head) + (EncodeColumns(big, rs.columns) + (EncodeRows(big, rs.rows) + rest))
  {
    var h := HeaderAtom(big, rs.head);
    if rs.columns == [] {
      assert Encode(big, rs) == h;
    } else {
      var cs, rows := EncodeColumns(big, rs.columns), EncodeRows(big, rs.rows);
      assert Encode(big, rs) == h + (cs + rows);
      assert h + (cs + rows) + rest == h + (cs + (rows + rest));
    }
  }

  /** The decoder recovers the result set and stops right behind it. */
  lemma DecodeOf(big: bool, rs: ResultSet, rest: bytes)
    requires WellFormed(rs) && MessageFits(Represent(rs))
    ensures Decode(Encode(big, rs) + rest) == Some((Represent(rs), rest))
  {
    EncodeInParts(big, rs, rest);
    if rs.columns == [] {
      DecodeHeaderOf(big, rs.head, rest);
    } else {
      ColumnNamesFit(rs);
      DecodeBodyOf(big, rs, rest);
    }
  }

  lemma DecodeBodyOf(big: bool, rs: ResultSet, rest: bytes)
    requires rs.columns != [] && rs.head.columnCount == |rs.columns| && |rs.head.errorText| < TWO_TO_THE_16
    requires forall i :: 0 <= i < |rs.columns| ==> |rs.columns[i].name| < TWO_TO_THE_16
    requires RowsFit(rs.rows) && forall row :: row in rs.rows ==> |row| == |rs.columns|
    ensures Decode(HeaderAtom(big, rs.head) + (EncodeColumns(big, rs.columns) + (EncodeRows(big, rs.rows) + rest))) ==
            Some((Represent(rs), rest))
  {
    var rows := EncodeRows(big, rs.rows) + rest;
    DecodeHeaderOf(big, rs.head, EncodeColumns(big, rs.columns) + rows);
    DecodeColumnsOf(big, rs.columns, rows);
    DecodeRowsOf(big, |rs.columns|, rs.rows, rest);
  }

  // ---------------------------------------------------------------- only what fits can come back

  lemma {:induction false} UnwordBound(big: bool, w: bytes)
    ensures Unword(big, w) < Pow256(|w|)
  {
    if w != [] {
      UnwordBound(big, if big then w[..|w| - 1] else w[1..]);
    }
  }

  lemma ReadWordBound(big: bool, width: nat, s: bytes)
    ensures ReadWord(big, width, s).Some? ==> ReadWord(big, width, s).value.0 < Pow256(width)
  {
    if |s| >= width {
      UnwordBound(big, s[..width]);
    }
  }

  lemma ReadCountedBound(big: bool, s: bytes)
    ensures ReadCounted(big, s).Some? ==> |ReadCounted(big, s).value.0| < TWO_TO_THE_16
  {
    WordSizes();
    ReadWordBound(big, 2, s);
  }

  lemma DecodeColumnBound(big: bool, s: bytes)
    ensures DecodeColumn(big, s).Some? ==> |DecodeColumn(big, s).value.0.name| < TWO_TO_THE_16
  {
    if DecodeColumn(big, s).Some? {
      hide ReadWord, ReadCounted;
      ReadCountedBound(big, ReadWord(big, 2, ReadWord(big, 2, s).value.1).value.1);
    }
  }

  lemma {:induction false} DecodeColumnsBound(big: bool, n: nat, s: bytes)
    ensures var r := DecodeColumns(big, n, s);
      r.Some? ==> forall i :: 0 <= i < |r.value.0| ==> |r.value.0[i].name| < TWO_TO_THE_16
  {
    hide DecodeColumn;
    if n != 0 && DecodeColumn(big, s).Some? {
      DecodeColumnBound(big, s);
      DecodeColumnsBound(big, n - 1, DecodeColumn(big, s).value.1);
    }
  }

  lemma DecodeFieldBound(big: bool, s: bytes)
    ensures DecodeField(big, s).Some? ==> ValueFits(DecodeField(big, s).value.0)
  {
    hide ReadWord, Pow256;
    WordSizes();
    ReadWordBound(big, 4, s);
  }

  lemma {:induction false} DecodeFieldsBound(big: bool, n: nat, s: bytes)
    ensures var r := DecodeFields(big, n, s);
      r.Some? ==> forall k :: 0 <= k < |r.value.0| ==> ValueFits(r.value.0[k])
  {
    hide DecodeField, ValueFits;
    if n != 0 && DecodeField(big, s).Some? {
      DecodeFieldBound(big, s);
      DecodeFieldsBound(big, n - 1, DecodeField(big, s).value.1);
    }
  }

  lemma RowsFitCons(row: seq<Value>, rows: seq<seq<Value>>)
    requires RowsFit(rows) && forall k :: 0 <= k < |row| ==> ValueFits(row[k])
    ensures RowsFit([row] + rows)
  {
    hide ValueFits;
    forall i, k | 0 <= i < |[row] + rows| && 0 <= k < |([row] + rows)[i]|
      ensures ValueFits(([row] + rows)[i][k])
    {
      if i > 0 {
        assert ([row] + rows)[i] == rows[i - 1];
      }
    }
  }

  lemma {:induction false} DecodeRowsBound(big: bool, n: nat, s: bytes)
    ensures var r := DecodeRows(big, n, s); r.Some? ==> RowsFit(r.value.0)
    decreases |s|
  {
    hide DecodeFields, ValueFits;
    if |s| > 0 && s[0] == 1 && DecodeFields(big, n, s[1..]).Some? {
      var (row, s1) := DecodeFields(big, n, s[1..]).value;
      DecodeFieldsBound(big, n, s[1..]);
      DecodeRowsBound(big, n, s1);
      if DecodeRows(big, n, s1).Some? {
        RowsFitCons(row, DecodeRows(big, n, s1).value.0);
      }
    }
  }

  lemma DecodeBound(s: bytes)
    ensures Decode(s).Some? ==> MessageFits(Decode(s).value.0)
  {
    if Decode(s).Some? {
      var (big, s1) := DecodePreamble(s).value;
      var (driverError, s5) := ReadWord(big, 2, ReadWord(big, 2, s1).value.1).value;
      ReadCountedBound(big, s5);
      var (counts, s3) := DecodeCounts(big, DecodeErrors(big, s1).value.1).value;
      if counts.2 != 0 {
        DecodeColumnsBound(big, counts.2, s3);
        DecodeRowsBound(big, counts.2, DecodeColumns(big, counts.2, s3).value.1);
      }
    }
  }

  /**
    Law: the documented decoder gives the result set back and stops right behind
    it, exactly when the names and the error text are shorter than 2^16 bytes and
    every field is shorter than 2^32 - 1.
   */
  lemma RoundTrip(big: bool, rs: ResultSet, rest: bytes)
    requires WellFormed(rs)
    ensures Decode(Encode(big, rs) + rest) == Some((Represent(rs), rest)) <==> MessageFits(Represent(rs))
  {
    DecodeBound(Encode(big, rs) + rest);
    if MessageFits(Represent(rs)) {
      DecodeOf(big, rs, rest);
    }
  }

  /** A field of 2^32 - 1 bytes carries the length that stands for NULL. */
  lemma LongFieldReadsAsNull(big: bool, data: bytes, rest: bytes)
    requires |data| == TWO_TO_THE_32 - 1
    ensures DecodeField(big, FieldLength(big, Text(data)) + FieldData(Text(data)) + rest) == Some((Null, data + rest))
  {
    WordSizes();
    assert FieldLength(big, Text(data)) + FieldData(Text(data)) + rest == FieldLength(big, Text(data)) + (data + rest);
    ReadWordOf(big, 4, TWO_TO_THE_32 - 1, data + rest);
  }
}
