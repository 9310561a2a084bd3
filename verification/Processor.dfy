/**
  The resumable client of ngx_http_drizzle_processor.c.

  `ProcessEvents` is called whenever the database connection may make progress.
  It dispatches on the stored state, runs until libdrizzle answers IO_WAIT or the
  request is finished, and on IO_WAIT stores just enough to come back to the same
  call.  The stored state is only written when it has to wait, so between two
  calls the place in the protocol is spread over `state`, `row` and
  `hasSetNames`.  Every method is proved to keep in step with the client of
  module `Delivery`, which has no re-entry points at all.
 */
module Processor {
  import opened Rds
  import opened Packing
  import opened OutputBuffers
  import D = Delivery

  datatype State = DbConnect | DbSendQuery | DbRecvCols | DbRecvRows | DbIdle

  datatype Outcome = Again | Done | Error | InternalServerError

  /** One turn of a read loop. */
  datatype Turn = More | Ended | Stopped(rc: Outcome)

  datatype Status = Unset | StatusOk | StatusGone

  class Processor {
    const big: bool
    const enableCharset: bool
    const layer: OutputLayer
    var state: State
    var row: nat
    var hasSetNames: bool
    var status: Status
    var script: seq<D.Reply>              // what libdrizzle is going to answer

    ghost const start: D.Client
    ghost var heard: seq<D.Reply>         // what it has answered
    ghost var client: D.Client            // where that leaves a client without re-entry points

    /**
      The zero-filled peer data of a request with its connection.  A new connection
      that is established at once starts in the idle state, any other new one in the
      connect state.  So does a reused one: neither way of reusing one sets the
      state, and libdrizzle answers at once that it is connected.
     */
    constructor (big: bool, enableCharset: bool, hasSetNames: bool, established: bool, bufSize: nat, script: seq<D.Reply>)
      ensures Valid() && Resumable() && fresh(layer) && heard == [] && this.script == script && this.big == big
      ensures start == D.Client(if established then D.Querying else D.Connecting, enableCharset && !hasSetNames)
      ensures state == (if established then DbIdle else DbConnect)
      ensures layer.sent == [] && layer.bufSize == bufSize
    {
      this.big, this.enableCharset, this.hasSetNames := big, enableCharset, hasSetNames;
      layer := new OutputLayer(bufSize);
      state, row, status, this.script := if established then DbIdle else DbConnect, 0, Unset, script;
      heard := [];
      start := D.Client(if established then D.Querying else D.Connecting, enableCharset && !hasSetNames);
      client := D.Client(if established then D.Querying else D.Connecting, enableCharset && !hasSetNames);
    }

    /** The ghost client has heard the same replies. */
    ghost predicate InStep()
      reads this
    {
      && client == D.After(start, heard)
      && (client.phase != D.Broken ==> client.owesNames == (enableCharset && !hasSetNames))
      && (client.phase in {D.ReadingColumns, D.ReadingRows, D.ReadingFields, D.Complete, D.Gone} ==> !client.owesNames)
    }

    /** The packing of the atoms that the replies heard so far ask for. */
    ghost function Packed(): Pack
      reads this
    {
      AddAll(EMPTY_PACK, layer.bufSize, D.Submitted(big, start, heard))
    }

    /** In step, and exactly the atoms the client was to submit have been, each on its own; the final flush may have been. */
    ghost predicate Valid()
      reads this, layer
    {
      && InStep() && layer.Sound() && (layer.seenStreamEnd ==> client.phase == D.Complete)
      && (layer.State() == Packed() || (client.phase == D.Complete && !layer.seenStreamEnd && layer.State() == Packing.Finish(Packed())))
    }

    /** The stored fields are enough to come back to the call that answered IO_WAIT. */
    ghost predicate Resumable()
      reads this
    {
      match client.phase
      case Connecting => state == DbConnect && row == 0
      case Querying => (state == DbSendQuery || state == DbIdle) && row == 0
      case ReadingColumns => state == DbRecvCols && row == 0
      case ReadingRows => state == DbRecvRows && row == 0
      case ReadingFields => state == DbRecvRows && row != 0
      case _ => false
    }

    /** Everything heard before the last reply was written; what that reply asks for is not yet. */
    ghost predicate Due(before: D.Client, r: D.Reply)
      reads this, layer
    {
      && client == D.After(start, heard) == D.Step(before, r)
      && layer.Sound() && !layer.seenStreamEnd
      && AddAll(layer.State(), layer.bufSize, D.Submits(big, before, r)) == Packed()
    }

    /** A libdrizzle call: it waits when nothing has arrived. */
    method Ask() returns (r: D.Reply)
      requires Valid() && !layer.seenStreamEnd && client.phase != D.Complete
      modifies this`script, this`heard, this`client
      ensures Due(old(client), r)
      ensures heard + script == old(heard + script)
      ensures if old(script) == [] then r == D.IoWait && script == [] else |script| < |old(script)|
    {
      hide D.Step, D.Submits, D.After, D.Submitted, AddAll, OutputLayer.Sound;
      if script == [] {
        r := D.IoWait;
        D.WaitingIsSilent(big, client);
        AddAllOne(layer.State(), layer.bufSize, []);
      } else {
        r := script[0];
        D.HearOneMore(big, start, heard, r);
        AddAllAppend(EMPTY_PACK, layer.bufSize, D.Submitted(big, start, heard), D.Submits(big, client, r));
        assert heard + script == heard + [r] + script[1..];
        script := script[1..];
        heard := heard + [r];
        client := D.Step(client, r);
      }
    }

    /** Submit the atom the last reply asks for. */
    method Put(atom: bytes, streamEnd: bool, ghost before: D.Client, ghost r: D.Reply)
      requires Due(before, r) && [atom] == D.Submits(big, before, r) && (streamEnd ==> atom != [])
      modifies layer
      ensures layer.Sound() && layer.State() == Packed() && layer.seenStreamEnd == streamEnd
    {
      AddAllOne(layer.State(), layer.bufSize, atom);
      layer.Emit(atom, streamEnd);
    }

    /** How a call of the state machine leaves the request. */
    ghost predicate Left(rc: Outcome)
      reads this, layer
    {
      match rc
      case Again => Resumable() && !layer.seenStreamEnd
      case Done =>
        && !layer.seenStreamEnd && layer.out == []
        && if client.phase == D.Complete then status == StatusOk && layer.availOut == 0
           else client.phase == D.Gone && status == StatusGone
      case _ => client.phase == D.Broken && !layer.seenStreamEnd
    }

    /** `ngx_http_upstream_drizzle_done`: flush, and reset the state machine. */
    method Finish(result: Status, accepted: nat)
      requires Valid()
      requires if client.phase == D.Complete then result == StatusOk && layer.seenStreamEnd
               else client.phase == D.Gone && result == StatusGone
      modifies this`status, this`state, layer
      ensures Valid() && Left(Done)
    {
      layer.OutputBufs(accepted);
      status := result;
      state := DbIdle;
    }

    /** `ngx_http_upstream_drizzle_recv_cols` */
    method RecvCols(accepted: nat) returns (rc: Outcome)
      requires Valid() && client.phase == D.ReadingColumns && row == 0 && !layer.seenStreamEnd
      modifies this, layer
      ensures Valid() && Left(rc) && heard + script == old(heard + script)
      ensures rc == Again ==> script == [] || |script| < |old(script)|
    {
      hide OutputLayer.Sound;
      var turn := More;
      while turn == More
        invariant Valid() && !layer.seenStreamEnd && row == 0
        invariant (turn == More && client.phase == D.ReadingColumns) || (turn == Ended && client.phase == D.ReadingRows)
        invariant heard + script == old(heard + script) && |script| <= |old(script)|
        decreases |script|, turn == More
      {
        turn := ReadColumn();
        if turn.Stopped? {
          return turn.rc;
        }
      }
      rc := RecvRows(accepted);
    }

    method ReadColumn() returns (turn: Turn)
      requires Valid() && client.phase == D.ReadingColumns && row == 0 && !layer.seenStreamEnd
      modifies this, layer
      ensures Valid() && heard + script == old(heard + script) && row == 0 && !layer.seenStreamEnd
      ensures match turn
              case More => client.phase == D.ReadingColumns && |script| < |old(script)|
              case Ended => client.phase == D.ReadingRows && |script| < |old(script)|
              case Stopped(rc) => Left(rc) && (rc == Again ==> script == [] || |script| < |old(script)|)
    {
      hide OutputLayer.Sound;
      ghost var before := client;
      var r := Ask();
      if r.IoWait? {
        if state != DbRecvCols {
          state := DbRecvCols;
        }
        return Stopped(Again);
      }
      if r.ColumnRead? {
        Put(ColumnAtom(big, r.column), false, before, r);
        return More;
      }
      return if r.ColumnsEnd? then Ended else Stopped(Error);
    }

    /** `ngx_http_upstream_drizzle_recv_rows` */
    method RecvRows(accepted: nat) returns (rc: Outcome)
      requires Valid() && client.phase == (if row == 0 then D.ReadingRows else D.ReadingFields) && !layer.seenStreamEnd
      modifies this, layer
      ensures Valid() && Left(rc) && heard + script == old(heard + script)
      ensures rc == Again ==> script == [] || |script| < |old(script)|
    {
      hide OutputLayer.Sound;
      while true
        invariant Valid() && client.phase == (if row == 0 then D.ReadingRows else D.ReadingFields) && !layer.seenStreamEnd
        invariant heard + script == old(heard + script) && |script| <= |old(script)|
        decreases |script|
      {
        if row == 0 {
          var turn := ReadRow(accepted);
          if turn.Stopped? {
            return turn.rc;
          }
        }
        var turn := RecvFields();
        if turn.Stopped? {
          return turn.rc;
        }
        row := 0;
      }
    }

    /** The row flag. */
    method ReadRow(accepted: nat) returns (turn: Turn)
      requires Valid() && client.phase == D.ReadingRows && row == 0 && !layer.seenStreamEnd
      modifies this, layer
      ensures Valid() && heard + script == old(heard + script) && turn != Ended
      ensures match turn
              case Stopped(rc) => Left(rc) && (rc == Again ==> script == [] || |script| < |old(script)|)
              case _ => client.phase == D.ReadingFields && row != 0 && !layer.seenStreamEnd && |script| < |old(script)|
    {
      hide OutputLayer.Sound;
      ghost var before := client;
      var r := Ask();
      if r.IoWait? {
        state := DbRecvRows;
        return Stopped(Again);
      }
      if !r.RowRead? {
        return Stopped(Error);
      }
      row := r.row;
      Put([if row == 0 then 0 else 1], row == 0, before, r);
      if row == 0 {
        if enableCharset && !hasSetNames {
          // the source would send the user query now
          assert false;
        }
        Finish(StatusOk, accepted);
        return Stopped(Done);
      }
      return More;
    }

    /** The inner loop of `recv_rows`: the fields of one row. */
    method RecvFields() returns (turn: Turn)
      requires Valid() && client.phase == D.ReadingFields && row != 0 && !layer.seenStreamEnd
      modifies this, layer
      ensures Valid() && heard + script == old(heard + script) && !layer.seenStreamEnd && row == old(row) && turn != More
      ensures match turn
              case Stopped(rc) => Left(rc) && (rc == Again ==> script == [] || |script| < |old(script)|)
              case _ => client.phase == D.ReadingRows && |script| < |old(script)|
    {
      hide OutputLayer.Sound;
      turn := More;
      while turn == More
        invariant Valid() && !layer.seenStreamEnd && row == old(row) && |script| <= |old(script)|
        invariant heard + script == old(heard + script)
        invariant match turn
                  case More => client.phase == D.ReadingFields
                  case Ended => client.phase == D.ReadingRows && |script| < |old(script)|
                  case Stopped(rc) => Left(rc) && (rc == Again ==> script == [] || |script| < |old(script)|)
        decreases |script|, turn == More
      {
        turn := ReadField();
      }
    }

    /** One piece of a field, or the end of the row. */
    method ReadField() returns (turn: Turn)
      requires Valid() && client.phase == D.ReadingFields && row != 0 && !layer.seenStreamEnd
      modifies this, layer
      ensures Valid() && heard + script == old(heard + script) && !layer.seenStreamEnd && row == old(row)
      ensures match turn
              case More => client.phase == D.ReadingFields && |script| < |old(script)|
              case Ended => client.phase == D.ReadingRows && |script| < |old(script)|
              case Stopped(rc) => Left(rc) && |script| <= |old(script)| && (rc == Again ==> script == [] || |script| < |old(script)|)
    {
      hide OutputLayer.Sound;
      ghost var before := client;
      var r := Ask();
      if r.IoWait? {
        state := DbRecvRows;
        return Stopped(Again);
      }
      if r.RowEnd? {
        return Ended;
      }
      if !r.FieldRead? {
        return Stopped(Error);
      }
      var atom := D.ChunkAtom(big, r.chunk);
      D.ChunkAcceptance(big, r.chunk);
      if atom.None? {
        return Stopped(Error);
      }
      if !D.IsEmptyStart(r.chunk) {
        Put(atom.value, false, before, r);
      }
      return More;
    }

    /** The set-names query has been answered: it is never sent again on this connection. */
    method NamesAreSet()
      requires client == D.After(start, heard) == D.Client(D.Querying, false)
      requires layer.Sound() && layer.State() == Packed() && !layer.seenStreamEnd
      modifies this`hasSetNames
      ensures Valid() && client == old(client)
    {
      hasSetNames := true;
    }

    /**
      `ngx_http_upstream_drizzle_send_query`.  It starts over once after the
      set-names query, whose result is not written.
     */
    method SendQuery(accepted: nat) returns (rc: Outcome)
      requires Valid() && client.phase == D.Querying && row == 0 && !layer.seenStreamEnd
      modifies this, layer
      ensures Valid() && Left(rc) && heard + script == old(heard + script)
      ensures rc == Again ==> script == [] || |script| < |old(script)|
      decreases !hasSetNames
    {
      hide OutputLayer.Sound;
      var turn := SendOneQuery(accepted);
      match turn
      case Stopped(stop) => rc := stop;
      case More => rc := SendQuery(accepted);
      case Ended => rc := RecvCols(accepted);
    }

    /** One query and its result header: `More` after set names, `Ended` when columns follow. */
    method SendOneQuery(accepted: nat) returns (turn: Turn)
      requires Valid() && client.phase == D.Querying && row == 0 && !layer.seenStreamEnd
      modifies this, layer
      ensures Valid() && heard + script == old(heard + script) && row == 0
      ensures match turn
              case More => client.phase == D.Querying && !layer.seenStreamEnd && !old(hasSetNames) && hasSetNames && |script| < |old(script)|
              case Ended => client.phase == D.ReadingColumns && !layer.seenStreamEnd && |script| < |old(script)|
              case Stopped(rc) => Left(rc) && (rc == Again ==> script == [] || |script| < |old(script)|)
    {
      hide OutputLayer.Sound, D.After, D.Submitted, AddAll;
      ghost var before := client;
      var r := Ask();
      if r.IoWait? {
        AddAllOne(layer.State(), layer.bufSize, []);
        if state != DbSendQuery {
          state := DbSendQuery;
        }
        return Stopped(Again);
      }
      if enableCharset && !hasSetNames {
        turn := NamesAnswer(r, before);
      } else {
        turn := UserAnswer(r, accepted, before);
      }
    }

    /** What follows the answer to the set-names query. */
    method NamesAnswer(r: D.Reply, ghost before: D.Client) returns (turn: Turn)
      requires before == D.Client(D.Querying, true) && Due(before, r) && !r.IoWait?
      requires enableCharset && !hasSetNames
      modifies this`hasSetNames, this`state
      ensures Valid()
      ensures if turn == More then client.phase == D.Querying && hasSetNames
              else turn in {Stopped(Error), Stopped(InternalServerError)} && client.phase == D.Broken
    {
      hide OutputLayer.Sound;
      if r == D.ServerError(D.MYSQL_ER_NO_SUCH_TABLE) {
        NamesAreSet();
        return More;
      }
      if !r.Answered? {
        return Stopped(InternalServerError);
      }
      if r.head.errorCode != 0 {
        return Stopped(Error);
      }
      NamesAreSet();
      state := DbIdle;
      return More;
    }

    /** What follows the answer to the user query. */
    method UserAnswer(r: D.Reply, accepted: nat, ghost before: D.Client) returns (turn: Turn)
      requires before == D.Client(D.Querying, false) && Due(before, r) && !r.IoWait? && row == 0
      requires !(enableCharset && !hasSetNames)
      modifies this`status, this`state, layer
      ensures Valid()
      ensures match turn
              case More => false
              case Ended => client.phase == D.ReadingColumns && !layer.seenStreamEnd
              case Stopped(rc) => rc != Again && Left(rc)
    {
      hide OutputLayer.Sound;
      if r == D.ServerError(D.MYSQL_ER_NO_SUCH_TABLE) {
        Finish(StatusGone, accepted);
        return Stopped(Done);
      }
      if !r.Answered? {
        return Stopped(InternalServerError);
      }
      turn := OutputResultHeader(r.head, accepted, before, r);
    }

    /** `ngx_http_drizzle_output_result_header` on the answer to the user query */
    method OutputResultHeader(head: Head, accepted: nat, ghost before: D.Client, ghost r: D.Reply) returns (turn: Turn)
      requires before == D.Client(D.Querying, false) && r == D.Answered(head) && Due(before, r) && row == 0
      requires !(enableCharset && !hasSetNames)
      modifies this`status, this`state, layer
      ensures Valid()
      ensures if head.columnCount == 0 then turn == Stopped(Done) && Left(Done)
              else turn == Ended && client.phase == D.ReadingColumns && !layer.seenStreamEnd
    {
      hide OutputLayer.Sound;
      Put(HeaderAtom(big, head), head.columnCount == 0, before, r);
      if head.columnCount == 0 {
        Finish(StatusOk, accepted);
        return Stopped(Done);
      }
      return Ended;
    }

    /** `ngx_http_upstream_drizzle_connect` */
    method Connect(accepted: nat) returns (rc: Outcome)
      requires Valid() && client.phase == D.Connecting && state == DbConnect && row == 0 && !layer.seenStreamEnd
      modifies this, layer
      ensures Valid() && Left(rc) && heard + script == old(heard + script)
      ensures rc == Again ==> script == [] || |script| < |old(script)|
    {
      hide OutputLayer.Sound, D.After, D.Submitted, AddAll;
      var r := Ask();
      AddAllOne(layer.State(), layer.bufSize, []);
      if r.IoWait? {
        return Again;
      }
      if !r.Connected? {
        return Error;
      }
      rc := SendQuery(accepted);
    }

    /**
      `ngx_http_drizzle_process_events`: one event.  `accepted` is what the client
      side takes when the output is flushed.
     */
    method ProcessEvents(accepted: nat) returns (rc: Outcome)
      requires Valid() && Resumable() && !layer.seenStreamEnd
      modifies this, layer
      ensures Valid() && Left(rc) && heard + script == old(heard + script)
      ensures rc == Again ==> script == [] || |script| < |old(script)|
    {
      hide OutputLayer.Sound;
      match state
      case DbConnect => rc := Connect(accepted);
      case DbIdle => rc := SendQuery(accepted);
      case DbSendQuery => rc := SendQuery(accepted);
      case DbRecvCols => rc := RecvCols(accepted);
      case DbRecvRows => rc := RecvRows(accepted);
      if rc == Again {
        layer.OutputBufs(accepted);
      }
    }
  }

  /** Events arrive until the request is finished; at event `i` the client side takes `accept(i)` bytes. */
  method Run(p: Processor, accept: nat -> nat, ghost rs: ResultSet) returns (rc: Outcome)
    requires p.Valid() && p.Resumable() && !p.layer.seenStreamEnd
    requires WellFormed(rs) && D.Carries(p.start, p.heard + p.script, rs)
    modifies p, p.layer
    ensures p.Valid() && rc == Done && p.Left(Done) && p.client.phase == D.Complete
    ensures D.Written(p.big, p.start, p.heard) == Encode(p.big, rs)
    ensures exists ds :: D.DeliversRows(ds, rs.rows) && D.Submitted(p.big, p.start, p.heard) == D.ResultAtoms(p.big, rs, ds)
  {
    hide OutputLayer.Sound, D.After, D.Submitted, D.Written, D.Carries, D.DeliversRows, D.ResultAtoms, Encode;
    var i := 0;
    rc := Again;
    while rc == Again
      invariant p.Valid() && p.Left(rc) && p.heard + p.script == old(p.heard + p.script)
      decreases rc == Again, |p.script|
    {
      if p.script == [] {
        D.FinishedMeansComplete(p.big, p.start, p.heard, p.script, rs);
        assert false;
      }
      rc := p.ProcessEvents(accept(i));
      i := i + 1;
    }
    D.FinishedMeansComplete(p.big, p.start, p.heard, p.script, rs);
  }

  /**
    Law: a whole request.  Whatever the pieces, the waits and the client's pace,
    the atoms handed to nginx are the header, the columns, the row flags and the
    pieces of fields of the result set, in order, each whole in one buffer and
    within its capacity.  Their bytes are exactly the batch encoding, and the
    documented decoder reads the result set back.
   */
  method Serve(p: Processor, accept: nat -> nat, ghost rs: ResultSet) returns (rc: Outcome)
    requires p.Valid() && p.Resumable() && !p.layer.seenStreamEnd
    requires WellFormed(rs) && D.Carries(p.start, p.heard + p.script, rs)
    modifies p, p.layer
    ensures rc == Done && p.status == StatusOk && p.layer.Valid()
    ensures exists ds :: D.DeliversRows(ds, rs.rows) && Flatten(p.layer.handed) == NonEmpty(D.ResultAtoms(p.big, rs, ds))
    ensures forall i :: 0 <= i < |p.layer.handed| ==> GroupFits(p.layer.handed[i], p.layer.bufSize)
    ensures p.layer.sent + p.layer.Remaining(p.layer.busy) == Encode(p.big, rs) == Concat(Flatten(p.layer.handed))
    ensures MessageFits(Represent(rs)) ==> Decode(Encode(p.big, rs)) == Some((Represent(rs), []))
  {
    hide Concat, Flatten, Encode, Decode, Represent, MessageFits, NonEmpty, D.DeliversRows, D.ResultAtoms, D.Submitted;
    rc := Run(p, accept, rs);
    Served(p, D.Submitted(p.big, p.start, p.heard));
    RoundTrip(p.big, rs, []);
    assert Encode(p.big, rs) + [] == Encode(p.big, rs);
  }

  /** What a flushed output layer has given to nginx: the atoms submitted to it. */
  lemma Served(p: Processor, atoms: seq<bytes>)
    requires p.layer.Sound() && p.layer.out == [] && p.layer.availOut == 0
    requires var all := AddAll(EMPTY_PACK, p.layer.bufSize, atoms); p.layer.State() in {all, Packing.Finish(all)}
    ensures Flatten(p.layer.handed) == NonEmpty(atoms)
    ensures forall i :: 0 <= i < |p.layer.handed| ==> GroupFits(p.layer.handed[i], p.layer.bufSize)
    ensures p.layer.sent + p.layer.Remaining(p.layer.busy) == Concat(atoms) == Concat(Flatten(p.layer.handed))
  {
    var all, groups := AddAll(EMPTY_PACK, p.layer.bufSize, atoms), p.layer.handed;
    PackingKeepsAtomsWhole(p.layer.bufSize, atoms);
    FinishKeepsAtoms(all, p.layer.bufSize);
    NonEmptyConcat(atoms);
    p.layer.NothingIsLeftBehind();
    assert p.layer.State().closed == groups && Atoms(p.layer.State()) == Flatten(groups);
  }
}
