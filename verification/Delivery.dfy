/**
  What libdrizzle can answer, and what a client has to make of it.

  libdrizzle delivers a result set as a sequence of replies: the columns, then
  for every row a row number and pieces of fields, with IO_WAIT wherever data has
  not arrived.  `Step` is the client of ngx_http_drizzle_processor.c without its
  re-entry points: one reply at a time, waiting in place on IO_WAIT.  The laws
  here say what a whole delivery makes it write, however the data is cut up.
 */
module Delivery {
  import opened Rds
  import P = Packing

  const MYSQL_ER_NO_SUCH_TABLE: int := 1146

  /** One answer of `drizzle_field_read`; no field pointer means SQL NULL. */
  datatype Chunk = Chunk(offset: nat, len: nat, total: nat, field: Option<bytes>)

  datatype Reply =
    | IoWait
    | Connected
    | Answered(head: Head)
    | ServerError(code: nat)
    | ColumnRead(column: Column)
    | ColumnsEnd
    | RowRead(row: nat)          // row number 0 is the end of the rows
    | FieldRead(chunk: Chunk)
    | RowEnd
    | Failed

  datatype Phase = Connecting | Querying | ReadingColumns | ReadingRows | ReadingFields | Complete | Gone | Broken

  /** Where the client is, and whether it still owes the connection a set-names query. */
  datatype Client = Client(phase: Phase, owesNames: bool)

  // ---------------------------------------------------------------- one field piece

  /** `ngx_http_drizzle_output_field`: the size it asks for. */
  function ChunkSize(c: Chunk): nat {
    (if c.offset == 0 then 4 else 0) + c.len % TWO_TO_THE_32
  }

  /** No byte of the field has arrived yet: nothing is written. */
  predicate IsEmptyStart(c: Chunk) {
    c.offset == 0 && c.len == 0 && c.total != 0
  }

  function ChunkHead(big: bool, c: Chunk): bytes {
    if c.offset != 0 then []
    else Word(big, 4, if c.field.None? then TWO_TO_THE_32 - 1 else c.total % TWO_TO_THE_32)
  }

  function ChunkData(c: Chunk): bytes {
    if c.len != 0 && c.field.Some? && c.len % TWO_TO_THE_32 <= |c.field.value|
    then c.field.value[..c.len % TWO_TO_THE_32] else []
  }

  /** What it writes; a length that does not match the size is a fatal error. */
  function ChunkAtom(big: bool, c: Chunk): Option<bytes> {
    if IsEmptyStart(c) then Some([])
    else
      var atom := ChunkHead(big, c) + ChunkData(c);
      if |atom| == ChunkSize(c) then Some(atom) else None
  }

  // ---------------------------------------------------------------- the client

  function Step(c: Client, r: Reply): Client {
    if r.IoWait? || c.phase in {Complete, Gone, Broken} then c else
    match c.phase
    case Connecting => if r.Connected? then c.(phase := Querying) else c.(phase := Broken)
    case Querying =>
      if r.Answered? then
        if c.owesNames then
          if r.head.errorCode != 0 then c.(phase := Broken) else c.(owesNames := false)
        else c.(phase := if r.head.columnCount == 0 then Complete else ReadingColumns)
      else if r == ServerError(MYSQL_ER_NO_SUCH_TABLE) then
        if c.owesNames then c.(owesNames := false) else c.(phase := Gone)
      else c.(phase := Broken)
    case ReadingColumns =>
      if r.ColumnRead? then c else if r.ColumnsEnd? then c.(phase := ReadingRows) else c.(phase := Broken)
    case ReadingRows =>
      if r.RowRead? then c.(phase := if r.row == 0 then Complete else ReadingFields) else c.(phase := Broken)
    case ReadingFields =>
      if r.FieldRead? then (if ChunkAtom(true, r.chunk).Some? then c else c.(phase := Broken))
      else if r.RowEnd? then c.(phase := ReadingRows) else c.(phase := Broken)
    case _ => c
  }

  /** The atoms submitted on one reply: one, or none. */
  function Submits(big: bool, c: Client, r: Reply): seq<bytes> {
    match c.phase
    case Querying => if r.Answered? && !c.owesNames then [HeaderAtom(big, r.head)] else []
    case ReadingColumns => if r.ColumnRead? then [ColumnAtom(big, r.column)] else []
    case ReadingRows => if r.RowRead? then [[if r.row == 0 then 0 else 1]] else []
    case ReadingFields => if r.FieldRead? then ChunkAtoms(big, r.chunk) else []
    case _ => []
  }

  function ChunkAtoms(big: bool, c: Chunk): seq<bytes> {
    match ChunkAtom(big, c)
    case Some(atom) => if IsEmptyStart(c) then [] else [atom]
    case None => []
  }

  function After(c: Client, replies: seq<Reply>): Client {
    if replies == [] then c else Step(After(c, replies[..|replies| - 1]), replies[|replies| - 1])
  }

  /** The atoms submitted on a sequence of replies. */
  function Submitted(big: bool, c: Client, replies: seq<Reply>): seq<bytes> {
    if replies == [] then []
    else
      var init, r := replies[..|replies| - 1], replies[|replies| - 1];
      Submitted(big, c, init) + Submits(big, After(c, init), r)
  }

  /** The bytes written on a sequence of replies. */
  function Written(big: bool, c: Client, replies: seq<Reply>): bytes {
    P.Concat(Submitted(big, c, replies))
  }

  lemma {:induction false} SubmittedAppend(big: bool, c: Client, s: seq<Reply>, t: seq<Reply>)
    ensures After(c, s + t) == After(After(c, s), t)
    ensures Submitted(big, c, s + t) == Submitted(big, c, s) + Submitted(big, After(c, s), t)
  {
    hide Step, Submits;
    if t == [] {
      assert s + t == s;
    } else {
      assert (s + t)[..|s + t| - 1] == s + t[..|t| - 1];
      SubmittedAppend(big, c, s, t[..|t| - 1]);
    }
  }

  lemma AfterOne(big: bool, c: Client, r: Reply)
    ensures After(c, [r]) == Step(c, r) && Submitted(big, c, [r]) == Submits(big, c, r)
  {
    hide Step, Submits;
    assert [r][..0] == [];
    assert [] + Submits(big, c, r) == Submits(big, c, r);
  }

  lemma HearOneMore(big: bool, c: Client, heard: seq<Reply>, r: Reply)
    ensures After(c, heard + [r]) == Step(After(c, heard), r)
    ensures Submitted(big, c, heard + [r]) == Submitted(big, c, heard) + Submits(big, After(c, heard), r)
  {
    hide Step, Submits;
    assert (heard + [r])[..|heard|] == heard;
  }

  lemma WaitingIsSilent(big: bool, c: Client)
    ensures Step(c, IoWait) == c && Submits(big, c, IoWait) == []
  {
  }

  /** A piece accepted in one byte order is accepted in the other. */
  lemma ChunkAcceptance(big: bool, c: Chunk)
    ensures ChunkAtom(big, c).Some? <==> ChunkAtom(true, c).Some?
  {
  }

  // ---------------------------------------------------------------- waiting does not matter

  function WithoutWaits(replies: seq<Reply>): seq<Reply> {
    if replies == [] then []
    else
      var init, r := WithoutWaits(replies[..|replies| - 1]), replies[|replies| - 1];
      if r.IoWait? then init else init + [r]
  }

  /** The last reply of a run that agrees with `done` up to there. */
  lemma LastReply(big: bool, c: Client, init: seq<Reply>, r: Reply, done: seq<Reply>)
    requires After(c, init) == After(c, done) && Submitted(big, c, init) == Submitted(big, c, done)
    ensures var done' := if r.IoWait? then done else done + [r];
      After(c, init + [r]) == After(c, done') && Submitted(big, c, init + [r]) == Submitted(big, c, done')
  {
    hide Step, Submits, After, Submitted;
    HearOneMore(big, c, init, r);
    HearOneMore(big, c, done, r);
    WaitingIsSilent(big, After(c, init));
  }

  /** Law: wherever IO_WAIT falls, the client ends in the same state and submits the same atoms. */
  lemma {:induction false} WaitsDoNotMatter(big: bool, c: Client, replies: seq<Reply>)
    ensures After(c, replies) == After(c, WithoutWaits(replies))
    ensures Submitted(big, c, replies) == Submitted(big, c, WithoutWaits(replies))
  {
    hide Step, Submits, After, Submitted;
    if replies != [] {
      var init, r := replies[..|replies| - 1], replies[|replies| - 1];
      WaitsDoNotMatter(big, c, init);
      LastReply(big, c, init, r, WithoutWaits(init));
      assert init + [r] == replies;
    }
  }

  /** A finished client ignores whatever else is said. */
  lemma {:induction false} FinishedIsFinal(big: bool, c: Client, replies: seq<Reply>)
    requires c.phase in {Complete, Gone, Broken}
    ensures After(c, replies) == c && Submitted(big, c, replies) == []
  {
    if replies != [] {
      FinishedIsFinal(big, c, replies[..|replies| - 1]);
    }
  }

  // ---------------------------------------------------------------- deliveries of a result set

  /**
    `chunks` delivers `data` from `offset` on: contiguous pieces, preceded by any
    number of empty starts while nothing has arrived.
   */
  predicate CutsFrom(chunks: seq<Chunk>, data: bytes, offset: nat, started: bool) {
    if chunks == [] then started && offset == |data|
    else
      var c := chunks[0];
      && (started ==> offset > 0)
      && c.offset == offset && c.total == |data|
      && offset + c.len <= |data| && c.len < TWO_TO_THE_32
      && c.field == Some(data[offset..offset + c.len])
      && CutsFrom(chunks[1..], data, offset + c.len, started || !IsEmptyStart(c))
  }

  predicate Cuts(chunks: seq<Chunk>, v: Value) {
    match v
    case Null => chunks == [Chunk(0, 0, 0, None)]
    case Text(data) => CutsFrom(chunks, data, 0, false)
  }

  function FieldReplies(chunks: seq<Chunk>): seq<Reply> {
    seq(|chunks|, i requires 0 <= i < |chunks| => FieldRead(chunks[i]))
  }

  function RowFieldReplies(cuts: seq<seq<Chunk>>): seq<Reply> {
    if cuts == [] then [] else FieldReplies(cuts[0]) + RowFieldReplies(cuts[1..])
  }

  /** Row numbers may be anything but 0. */
  datatype RowDelivery = RowDelivery(number: nat, cuts: seq<seq<Chunk>>)

  predicate DeliversRow(d: RowDelivery, row: seq<Value>) {
    d.number != 0 && |d.cuts| == |row| && forall k :: 0 <= k < |row| ==> Cuts(d.cuts[k], row[k])
  }

  function RowsReplies(ds: seq<RowDelivery>): seq<Reply> {
    if ds == [] then [RowRead(0)]
    else [RowRead(ds[0].number)] + RowFieldReplies(ds[0].cuts) + [RowEnd] + RowsReplies(ds[1..])
  }

  function ColumnReplies(cs: seq<Column>): seq<Reply> {
    if cs == [] then [ColumnsEnd] else [ColumnRead(cs[0])] + ColumnReplies(cs[1..])
  }

  predicate DeliversRows(ds: seq<RowDelivery>, rows: seq<seq<Value>>) {
    |ds| == |rows| && forall i :: 0 <= i < |rows| ==> DeliversRow(ds[i], rows[i])
  }

  /** All replies to a user query whose answer is `rs`. */
  function ResultReplies(rs: ResultSet, ds: seq<RowDelivery>): seq<Reply> {
    [Answered(rs.head)] + if rs.columns == [] then [] else ColumnReplies(rs.columns) + RowsReplies(ds)
  }

  // ---------------------------------------------------------------- streaming writes what batch encoding writes

  /** What is still to be written of a field. */
  function FieldRest(big: bool, data: bytes, offset: nat, started: bool): bytes
    requires offset <= |data|
  {
    (if started then [] else FieldLength(big, Text(data))) + data[offset..]
  }

  predicate FitsAt(ch: Chunk, data: bytes, offset: nat, started: bool) {
    && ch.offset == offset && ch.total == |data| && offset + ch.len <= |data| && ch.len < TWO_TO_THE_32
    && ch.field == Some(data[offset..offset + ch.len]) && (started <==> offset > 0)
  }

  lemma OnePiece(big: bool, ch: Chunk, data: bytes, offset: nat, started: bool)
    requires FitsAt(ch, data, offset, started)
    ensures var atom := ChunkAtom(big, ch);
      && atom.Some?
      && FieldRest(big, data, offset, started) ==
           atom.value + FieldRest(big, data, offset + ch.len, started || !IsEmptyStart(ch))
  {
    if IsEmptyStart(ch) {
      assert [] + FieldRest(big, data, 0, false) == FieldRest(big, data, 0, false);
    } else {
      assert ChunkData(ch) == data[offset..offset + ch.len];
      assert data[offset..] == data[offset..offset + ch.len] + data[offset + ch.len..];
    }
  }

  // The atoms of a delivery, one for each reply that makes the client write.

  function FieldAtoms(big: bool, chunks: seq<Chunk>): seq<bytes> {
    if chunks == [] then [] else ChunkAtoms(big, chunks[0]) + FieldAtoms(big, chunks[1..])
  }

  function RowAtoms(big: bool, cuts: seq<seq<Chunk>>): seq<bytes> {
    if cuts == [] then [] else FieldAtoms(big, cuts[0]) + RowAtoms(big, cuts[1..])
  }

  function RowsAtoms(big: bool, ds: seq<RowDelivery>): seq<bytes> {
    if ds == [] then [[0]] else [[1]] + RowAtoms(big, ds[0].cuts) + RowsAtoms(big, ds[1..])
  }

  function ColumnAtoms(big: bool, cs: seq<Column>): seq<bytes> {
    if cs == [] then [] else [ColumnAtom(big, cs[0])] + ColumnAtoms(big, cs[1..])
  }

  /** Header, columns, row flags and pieces of fields: what has to stay whole in one buffer. */
  function ResultAtoms(big: bool, rs: ResultSet, ds: seq<RowDelivery>): seq<bytes> {
    [HeaderAtom(big, rs.head)] + if rs.columns == [] then [] else ColumnAtoms(big, rs.columns) + RowsAtoms(big, ds)
  }

  lemma ConcatFirst(a: bytes, s: seq<bytes>)
    ensures P.Concat([a] + s) == a + P.Concat(s)
  {
    P.ConcatOne(a);
    P.ConcatAppend([a], s);
  }

  lemma PieceRead(big: bool, c: Client, ch: Chunk)
    requires c.phase == ReadingFields && ChunkAtom(big, ch).Some?
    ensures After(c, [FieldRead(ch)]) == c && Submitted(big, c, [FieldRead(ch)]) == ChunkAtoms(big, ch)
    ensures P.Concat(ChunkAtoms(big, ch)) == ChunkAtom(big, ch).value
  {
    ChunkAcceptance(big, ch);
    AfterOne(big, c, FieldRead(ch));
    P.ConcatOne(ChunkAtom(big, ch).value);
    assert P.Concat([]) == [];
    hide After, Submitted, P.Concat;
  }

  lemma FirstFieldReply(chunks: seq<Chunk>)
    requires chunks != []
    ensures FieldReplies(chunks) == [FieldRead(chunks[0])] + FieldReplies(chunks[1..])
  {
  }

  lemma FirstPiece(big: bool, c: Client, chunks: seq<Chunk>)
    requires chunks != [] && c.phase == ReadingFields && ChunkAtom(big, chunks[0]).Some?
    requires After(c, FieldReplies(chunks[1..])) == c && Submitted(big, c, FieldReplies(chunks[1..])) == FieldAtoms(big, chunks[1..])
    ensures After(c, FieldReplies(chunks)) == c && Submitted(big, c, FieldReplies(chunks)) == FieldAtoms(big, chunks)
    ensures P.Concat(FieldAtoms(big, chunks)) == ChunkAtom(big, chunks[0]).value + P.Concat(FieldAtoms(big, chunks[1..]))
  {
    var ch, more := chunks[0], FieldReplies(chunks[1..]);
    FirstFieldReply(chunks);
    hide Step, Submits, ChunkAtom, ChunkAtoms, After, Submitted, FieldReplies;
    PieceRead(big, c, ch);
    SubmittedAppend(big, c, [FieldRead(ch)], more);
    P.ConcatAppend(ChunkAtoms(big, ch), FieldAtoms(big, chunks[1..]));
  }

  lemma CutsFirst(chunks: seq<Chunk>, data: bytes, offset: nat, started: bool)
    requires chunks != [] && CutsFrom(chunks, data, offset, started) && (!started ==> offset == 0)
    ensures var ch := chunks[0]; var started' := started || !IsEmptyStart(ch);
      && FitsAt(ch, data, offset, started) && offset + ch.len <= |data|
      && CutsFrom(chunks[1..], data, offset + ch.len, started') && (!started' ==> offset + ch.len == 0)
  {
  }

  lemma NoPieces(big: bool, c: Client, data: bytes)
    ensures After(c, FieldReplies([])) == c && Submitted(big, c, FieldReplies([])) == FieldAtoms(big, []) == []
    ensures P.Concat([]) == FieldRest(big, data, |data|, true)
  {
    assert FieldReplies([]) == [] && data[|data|..] == [];
    hide Step, Submits;
  }

  lemma {:induction false} FieldPieces(big: bool, c: Client, chunks: seq<Chunk>, data: bytes, offset: nat, started: bool)
    requires c.phase == ReadingFields && offset <= |data|
    requires CutsFrom(chunks, data, offset, started) && (!started ==> offset == 0)
    ensures After(c, FieldReplies(chunks)) == c && Submitted(big, c, FieldReplies(chunks)) == FieldAtoms(big, chunks)
    ensures P.Concat(FieldAtoms(big, chunks)) == FieldRest(big, data, offset, started)
    decreases |chunks|
  {
    if chunks == [] {
      assert started && offset == |data|;
      hide *;
      NoPieces(big, c, data);
    } else {
      var ch := chunks[0];
      CutsFirst(chunks, data, offset, started);
      hide *;
      OnePiece(big, ch, data, offset, started);
      FieldPieces(big, c, chunks[1..], data, offset + ch.len, started || !IsEmptyStart(ch));
      FirstPiece(big, c, chunks);
    }
  }

  lemma FieldDelivered(big: bool, c: Client, chunks: seq<Chunk>, v: Value)
    requires c.phase == ReadingFields && Cuts(chunks, v)
    ensures After(c, FieldReplies(chunks)) == c && Submitted(big, c, FieldReplies(chunks)) == FieldAtoms(big, chunks)
    ensures P.Concat(FieldAtoms(big, chunks)) == FieldLength(big, v) + FieldData(v)
  {
    match v
    case Null =>
      var ch := chunks[0];
      assert FieldReplies(chunks) == [FieldRead(ch)];
      PieceRead(big, c, ch);
      assert chunks[1..] == [] && ChunkAtoms(big, ch) + [] == ChunkAtoms(big, ch);
    case Text(data) =>
      FieldPieces(big, c, chunks, data, 0, false);
      assert FieldRest(big, data, 0, false) == FieldLength(big, v) + data;
  }

  lemma {:induction false} FieldsDelivered(big: bool, c: Client, cuts: seq<seq<Chunk>>, row: seq<Value>)
    requires c.phase == ReadingFields && |cuts| == |row| && forall k :: 0 <= k < |row| ==> Cuts(cuts[k], row[k])
    ensures After(c, RowFieldReplies(cuts)) == c && Submitted(big, c, RowFieldReplies(cuts)) == RowAtoms(big, cuts)
    ensures P.Concat(RowAtoms(big, cuts)) == EncodeFields(big, row)
  {
    if cuts != [] {
      hide FieldAtoms, FieldReplies, Step, Submits, Cuts;
      FieldDelivered(big, c, cuts[0], row[0]);
      FieldsDelivered(big, c, cuts[1..], row[1..]);
      SubmittedAppend(big, c, FieldReplies(cuts[0]), RowFieldReplies(cuts[1..]));
      P.ConcatAppend(FieldAtoms(big, cuts[0]), RowAtoms(big, cuts[1..]));
    }
  }

  lemma RowDelivered(big: bool, c: Client, d: RowDelivery, row: seq<Value>)
    requires c.phase == ReadingRows && DeliversRow(d, row)
    ensures var replies := [RowRead(d.number)] + RowFieldReplies(d.cuts) + [RowEnd];
      After(c, replies) == c && Submitted(big, c, replies) == [[1]] + RowAtoms(big, d.cuts)
    ensures P.Concat([[1]] + RowAtoms(big, d.cuts)) == [1] + EncodeFields(big, row)
  {
    var inside := c.(phase := ReadingFields);
    var first, fields := [RowRead(d.number)], RowFieldReplies(d.cuts);
    AfterOne(big, c, RowRead(d.number));
    AfterOne(big, inside, RowEnd);
    assert After(c, first) == inside && Submitted(big, c, first) == [[1]];
    assert After(inside, [RowEnd]) == c && Submitted(big, inside, [RowEnd]) == [];
    hide Step, Submits, After, Submitted, RowFieldReplies, EncodeFields, RowAtoms;
    FieldsDelivered(big, inside, d.cuts, row);
    SubmittedAppend(big, c, first, fields);
    SubmittedAppend(big, c, first + fields, [RowEnd]);
    ConcatFirst([1], RowAtoms(big, d.cuts));
  }

  lemma {:induction false} RowsDelivered(big: bool, c: Client, ds: seq<RowDelivery>, rows: seq<seq<Value>>)
    requires c.phase == ReadingRows && DeliversRows(ds, rows)
    ensures After(c, RowsReplies(ds)) == c.(phase := Complete) && Submitted(big, c, RowsReplies(ds)) == RowsAtoms(big, ds)
    ensures P.Concat(RowsAtoms(big, ds)) == EncodeRows(big, rows)
  {
    if ds == [] {
      AfterOne(big, c, RowRead(0));
      P.ConcatOne([0]);
    } else {
      var first, atoms := [RowRead(ds[0].number)] + RowFieldReplies(ds[0].cuts) + [RowEnd], [[1]] + RowAtoms(big, ds[0].cuts);
      assert DeliversRow(ds[0], rows[0]);
      hide Step, Submits, After, Submitted, RowFieldReplies, EncodeFields, RowAtoms, DeliversRow;
      RowDelivered(big, c, ds[0], rows[0]);
      RowsDelivered(big, c, ds[1..], rows[1..]);
      SubmittedAppend(big, c, first, RowsReplies(ds[1..]));
      P.ConcatAppend(atoms, RowsAtoms(big, ds[1..]));
    }
  }

  lemma {:induction false} ColumnsDelivered(big: bool, c: Client, cs: seq<Column>)
    requires c.phase == ReadingColumns
    ensures After(c, ColumnReplies(cs)) == c.(phase := ReadingRows) && Submitted(big, c, ColumnReplies(cs)) == ColumnAtoms(big, cs)
    ensures P.Concat(ColumnAtoms(big, cs)) == EncodeColumns(big, cs)
  {
    if cs == [] {
      AfterOne(big, c, ColumnsEnd);
    } else {
      AfterOne(big, c, ColumnRead(cs[0]));
      ColumnsDelivered(big, c, cs[1..]);
      SubmittedAppend(big, c, [ColumnRead(cs[0])], ColumnReplies(cs[1..]));
      ConcatFirst(ColumnAtom(big, cs[0]), ColumnAtoms(big, cs[1..]));
    }
  }

  /** The replies to the query itself make the client submit the atoms of the batch encoding. */
  lemma ResultDelivered(big: bool, c: Client, rs: ResultSet, ds: seq<RowDelivery>)
    requires c == Client(Querying, false) && WellFormed(rs) && DeliversRows(ds, rs.rows)
    ensures After(c, ResultReplies(rs, ds)) == c.(phase := Complete)
    ensures Submitted(big, c, ResultReplies(rs, ds)) == ResultAtoms(big, rs, ds)
    ensures P.Concat(ResultAtoms(big, rs, ds)) == Encode(big, rs)
  {
    var head := [Answered(rs.head)];
    AfterOne(big, c, Answered(rs.head));
    if rs.columns == [] {
      assert ResultReplies(rs, ds) == head;
      P.ConcatOne(HeaderAtom(big, rs.head));
    } else {
      var c1, c2 := c.(phase := ReadingColumns), c.(phase := ReadingRows);
      var cols, rows := ColumnReplies(rs.columns), RowsReplies(ds);
      assert After(c, head) == c1 && Submitted(big, c, head) == [HeaderAtom(big, rs.head)];
      hide Step, Submits, After, Submitted, RowsReplies, ColumnReplies, RowsAtoms, ColumnAtoms, HeaderAtom;
      ColumnsDelivered(big, c1, rs.columns);
      RowsDelivered(big, c2, ds, rs.rows);
      SubmittedAppend(big, c1, cols, rows);
      SubmittedAppend(big, c, head, cols + rows);
      P.ConcatAppend(ColumnAtoms(big, rs.columns), RowsAtoms(big, ds));
      ConcatFirst(HeaderAtom(big, rs.head), ColumnAtoms(big, rs.columns) + RowsAtoms(big, ds));
    }
  }

  // ---------------------------------------------------------------- whole requests

  /** What comes before the answer to the user query: the handshake, then set names if owed. */
  predicate Prelude(c: Client, replies: seq<Reply>)
    decreases |replies|
  {
    match c.phase
    case Connecting => replies != [] && replies[0] == Connected && Prelude(Client(Querying, c.owesNames), replies[1..])
    case Querying =>
      if c.owesNames then
        |replies| == 1 && (replies[0] == ServerError(MYSQL_ER_NO_SUCH_TABLE) || (replies[0].Answered? && replies[0].head.errorCode == 0))
      else replies == []
    case _ => false
  }

  lemma {:induction false} PreludeIsSilent(big: bool, c: Client, replies: seq<Reply>)
    requires Prelude(c, replies)
    ensures After(c, replies) == Client(Querying, false) && Submitted(big, c, replies) == []
    decreases |replies|
  {
    if replies != [] {
      AfterOne(big, c, replies[0]);
      if c.phase == Connecting {
        assert replies == [replies[0]] + replies[1..];
        PreludeIsSilent(big, Client(Querying, c.owesNames), replies[1..]);
        SubmittedAppend(big, c, [replies[0]], replies[1..]);
      } else {
        assert replies == [replies[0]];
      }
    }
  }

  /** `replies` carries a whole answer to a client in state `c`, with waits anywhere. */
  ghost predicate Carries(c: Client, replies: seq<Reply>, rs: ResultSet) {
    exists prelude, ds :: Prelude(c, prelude) && DeliversRows(ds, rs.rows)
      && WithoutWaits(replies) == prelude + ResultReplies(rs, ds)
  }

  /**
    Law: streaming refines batch.  However the answer is cut into pieces and
    wherever the client has to wait, it ends complete and has submitted the atoms
    of the result set, whose bytes are exactly the batch encoding.
   */
  lemma StreamingRefinesBatch(big: bool, c: Client, replies: seq<Reply>, rs: ResultSet)
    requires WellFormed(rs) && Carries(c, replies, rs)
    ensures After(c, replies).phase == Complete
    ensures Written(big, c, replies) == Encode(big, rs)
    ensures exists ds :: DeliversRows(ds, rs.rows) && Submitted(big, c, replies) == ResultAtoms(big, rs, ds)
  {
    var prelude, ds :| Prelude(c, prelude) && DeliversRows(ds, rs.rows)
      && WithoutWaits(replies) == prelude + ResultReplies(rs, ds);
    hide Step, Submits, After, Submitted, Encode, ResultReplies, ResultAtoms, WithoutWaits, Prelude;
    WaitsDoNotMatter(big, c, replies);
    PreludeIsSilent(big, c, prelude);
    ResultDelivered(big, Client(Querying, false), rs, ds);
    SubmittedAppend(big, c, prelude, ResultReplies(rs, ds));
    assert Submitted(big, c, replies) == ResultAtoms(big, rs, ds);
  }

  /**
    A client that has finished on the first part of a delivery has finished the
    whole request: complete, with everything submitted.
   */
  lemma FinishedMeansComplete(big: bool, c: Client, heard: seq<Reply>, rest: seq<Reply>, rs: ResultSet)
    requires WellFormed(rs) && Carries(c, heard + rest, rs)
    requires After(c, heard).phase in {Complete, Gone, Broken} || rest == []
    ensures After(c, heard).phase == Complete
    ensures Written(big, c, heard) == Encode(big, rs)
    ensures exists ds :: DeliversRows(ds, rs.rows) && Submitted(big, c, heard) == ResultAtoms(big, rs, ds)
  {
    hide Step, Submits, After, Submitted, Encode, ResultAtoms, DeliversRows, Carries;
    StreamingRefinesBatch(big, c, heard + rest, rs);
    SubmittedAppend(big, c, heard, rest);
    if rest == [] {
      assert heard + rest == heard;
    } else {
      FinishedIsFinal(big, After(c, heard), rest);
      assert Submitted(big, c, heard + rest) == Submitted(big, c, heard);
    }
  }

  /** Law: until the answer to the user query arrives, and when its table is gone, nothing is written. */
  lemma {:induction false} NothingBeforeTheHeader(big: bool, c: Client, heard: seq<Reply>)
    requires c.phase in {Connecting, Querying} && After(c, heard).phase in {Connecting, Querying, Gone}
    ensures Submitted(big, c, heard) == []
    decreases |heard|
  {
    if heard != [] {
      var init, r := heard[..|heard| - 1], heard[|heard| - 1];
      if After(c, init).phase in {Connecting, Querying, Gone} {
        NothingBeforeTheHeader(big, c, init);
      } else {
        NoWayBack(c, init);
      }
    }
  }

  /** A client that reads a result never queries again. */
  lemma NoWayBack(c: Client, heard: seq<Reply>)
    requires After(c, heard).phase !in {Connecting, Querying, Gone}
    ensures forall r :: Step(After(c, heard), r).phase !in {Connecting, Querying, Gone}
  {
  }

  // ---------------------------------------------------------------- the set-names query

  /** How often a client in state `c` hears the answer to a set-names query. */
  function NamesAnswers(c: Client, heard: seq<Reply>): nat {
    if heard == [] then 0
    else
      var init, r := heard[..|heard| - 1], heard[|heard| - 1];
      NamesAnswers(c, init) +
        if After(c, init).owesNames && !Step(After(c, init), r).owesNames then 1 else 0
  }

  /**
    Law: a client that owes the set-names query hears its answer exactly once
    before it hears any answer to the user query; one that does not owe it never
    sends it.
   */
  lemma {:induction false} NamesAreSetOnce(c: Client, heard: seq<Reply>)
    requires c.phase in {Connecting, Querying}
    ensures After(c, heard).owesNames ==> c.owesNames
    ensures NamesAnswers(c, heard) == if c.owesNames && !After(c, heard).owesNames then 1 else 0
    ensures After(c, heard).phase !in {Connecting, Querying, Broken} ==> !After(c, heard).owesNames
  {
    if heard != [] {
      NamesAreSetOnce(c, heard[..|heard| - 1]);
    }
  }
}
