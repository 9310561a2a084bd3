# Verified models of the drizzle nginx module and the Drizzle client tools

This project models, in Dafny, four pieces of software around the Drizzle
database server and proves what they promise.

- **The streaming pipeline of the nginx drizzle module.** A client state machine
  that can stop at every IO_WAIT reads a result set from libdrizzle and emits it
  as Resty-DBD-Stream 0.0.3, atom by atom, through a two-phase buffer allocator.
  `Rds` has the format, its batch encoder and a decoder written from the format
  description. `Packing` says which atoms share a buffer. `OutputBuffers` is the
  allocator as a class over storage: open buffer, scratch area, chain, busy and
  free lists. `Delivery` is the protocol of libdrizzle replies and a client
  without re-entry points; `Processor` is the resumable client of the source,
  proved to keep in step with it, atom by atom. The main result is
  `Processor.Serve`.
- **The connection pool.** `Pool` has the queue operations and release paths as
  functions, `Keepalive` the same as classes that update their fields. `Worker`
  interleaves any number of requests, handler by handler, and proves the
  accounting over every run; `Service` lets those requests hear replies, so that
  what enters the cache follows from what was read; `Charsets` asks in which
  character set a request is served.
- **Calendar arithmetic.** `Calendar` proves the day-number formulas against a
  reference that only counts days, with the 32-bit additions of the source.
- **The client's statement scanner and the quoting that has to agree with it.**
  `Scanner` is the scanner on values and `LineEditor` the one that edits a line in
  its own array. `ServerText` is the string and name lexer of the server.
  `DumpQuoting`, `ClientText`, `DumpInserts` and `DumpReload` follow a table from
  the dump program through the client to the server and get its rows back.
  `QuoteDoubling` and `ImportOptions` are the two other quoting routines.

`dafny verify dfyconfig.toml` checks the whole project.

## What the proofs found

Where a promised property does not hold for the code as it is, the model keeps
the code, a lemma shows the failing input, and another says exactly when the
property holds.

- `year + 4800` is a 32-bit addition. For the last 4800 years it wraps; the day
  number is then wrong, and `Calendar.DateRoundTripExact` says which dates still
  survive the conversion there and back.
- `is_valid_gregorian_date` accepts day 0 (`Calendar.ValidityTest`), and the length of
  year 0 and of some of the years that wrap disagrees with the day-number formula
  (`Calendar.JanuaryFirsts` says of which).
- A field of 2^32 - 1 bytes carries the length that stands for NULL
  (`Rds.LongFieldReadsAsNull`, with `Rds.RoundTrip` for the exact condition).
- When event registration fails in `get_peer`, the connection is closed on the
  `invalid` path and once more by the release of the request, so that the counter
  drops twice. On an idle worker the unsigned counter wraps
  (`Worker.FailureWrapsTheCounter`), and with overflow rejection no connection is
  ever opened again (`Worker.FailureClosesTheDoor`). `Worker.PoolAccounting` has
  the equation that always holds.
- A request can get an idle connection in another character set than the peer in
  turn configures, and then does not set its own: in multi mode from a peer at the
  same address, also if the peer in turn configures none; in single mode from any
  peer, because `get_peer_single` leaves the charset flag of the request off, so
  that the connection stays in the set of its opener (`Charsets.SingleKeepsOpeners`).
  `Charsets.OwnCharsetExactly` says for which configurations this cannot happen.
- A reused connection starts in the connect state, because neither way of reusing
  one sets the state, and goes through the connect call again
  (`Processor.Processor.constructor`).
- The branch of `recv_rows` that sends set-names after the last row is never
  reached: `Processor.Processor.ReadRow` refutes it.
- A truncated UTF-8 character makes the client read past the NUL of the line
  (`Scanner.TruncatedLineOverruns`), exactly if the loop takes a turn at it
  (`Scanner.OverrunExactly`).
- A lone leading byte before a quote makes the client break a dumped literal that
  the server would read correctly (`ClientText.MalformedLiteralBreaks`);
  `ClientText.LiteralClosesExactly` says which values stay one literal.
- The client takes a backslash in a quoted name for an escape, the server does
  not (`ClientText.BackslashedNameBreaks`); `ClientText.NameSurvivesExactly` says
  which names survive.
- The closing `ALTER TABLE … ENABLE KEYS` of a dump quotes the raw table name, the
  other statements the cleaned one; it names the table exactly if the name holds
  no quote (`DumpReload.EnableKeysNames`).
- The comment in the source says that a line comment by itself is sent at once;
  the code sends it exactly if something unsent stands before it
  (`Scanner.CommentIsSentExactly`), and keeps a comment by itself in the buffer
  (`Scanner.LoneCommentStays`).
- The client's line reader fails at a line of `max_input_line` bytes or more, and the
  client takes that for the end of the file: a dump with such a line loses its
  statement and all that follow, without an error (`DumpReload.LongValueIsLost`).
  `DumpReload.DumpIsReloaded` says exactly what arrives.

## Model

| member | source | states |
|---|---|---|
| `Processor.Serve` | drizzle-nginx-module-master/src/ngx_http_drizzle_processor.c:37-127 | A whole request: whatever the pieces, the IO_WAITs and the pace of the HTTP client, the atoms handed to nginx are the header, the columns, the row flags and the pieces of fields of the result set, in order, each whole in one buffer within its capacity; their bytes are exactly the batch encoding; the documented decoder reads the result set back |
| `Processor.Run` | drizzle-nginx-module-master/src/ngx_http_drizzle_processor.c:176-513 | Events lead to `done` after finitely many calls, in phase complete, with exactly the atoms of the result set submitted |
| `Processor.Processor.constructor` | drizzle-nginx-module-master/src/ngx_http_drizzle_upstream.c:767-783 | The zero-filled peer data of a request with its connection: the idle state on a new connection that is established at once, else, reused connections included, the connect state; in step with the reference client, owing a set-names query exactly if a character set is enabled and not yet set |
| `Processor.Processor.ProcessEvents` | drizzle-nginx-module-master/src/ngx_http_drizzle_processor.c:37-127 | Dispatch on the stored state and the connected flag resumes exactly where the reference client is; the replies heard and still to come are conserved, and IO_WAIT is answered only after progress or when nothing has arrived |
| `Processor.Processor.Connect` | drizzle-nginx-module-master/src/ngx_http_drizzle_processor.c:130-173 | The connect step, with IO_WAIT re-entry, falls through to the query |
| `Processor.Processor.SendQuery` | drizzle-nginx-module-master/src/ngx_http_drizzle_processor.c:176-296 | Starts over at most once: the recursion is bounded by the flag that the answer to set-names sets |
| `Processor.Processor.SendOneQuery` | drizzle-nginx-module-master/src/ngx_http_drizzle_processor.c:190-282 | One query and its header: set-names while owed (none of its result is written), then the user query |
| `Processor.Processor.NamesAnswer` | drizzle-nginx-module-master/src/ngx_http_drizzle_processor.c:230-287 | After the answer to set-names, or a missing-table error, the flag is set and the user query is sent; any other error ends the request |
| `Processor.Processor.UserAnswer` | drizzle-nginx-module-master/src/ngx_http_drizzle_processor.c:230-296 | The user query: a missing table ends in status 410 without output, other errors break the request, a header goes on to the columns |
| `Processor.Processor.OutputResultHeader` | drizzle-nginx-module-master/src/ngx_http_drizzle_output.c:49-185 | The header atom; with no columns it is the whole response and ends the stream |
| `Processor.Processor.RecvCols` | drizzle-nginx-module-master/src/ngx_http_drizzle_processor.c:299-371 | The column loop writes one atom per column in order and falls through to the rows; resumable at every column |
| `Processor.Processor.ReadColumn` | drizzle-nginx-module-master/src/ngx_http_drizzle_output.c:296-362 | One column atom, or the end of the columns |
| `Processor.Processor.RecvRows` | drizzle-nginx-module-master/src/ngx_http_drizzle_processor.c:374-513 | The row loop, resumable at the row flag and inside a row through the stored row number |
| `Processor.Processor.ReadRow` | drizzle-nginx-module-master/src/ngx_http_drizzle_processor.c:394-441 | The row flag; the zero flag ends the stream; the branch that would send set-names after the last row is refuted |
| `Processor.Processor.RecvFields` | drizzle-nginx-module-master/src/ngx_http_drizzle_processor.c:445-489 | The field loop of one row |
| `Processor.Processor.ReadField` | drizzle-nginx-module-master/src/ngx_http_drizzle_output.c:392-452 | One piece of a field: length and data for the first piece, data alone for later ones, nothing for an empty first piece |
| `Processor.Processor.Finish` | drizzle-nginx-module-master/src/ngx_http_drizzle_processor.c:516-553 | `done` flushes, sets the status and resets the state machine |
| `Processor.Served` | drizzle-nginx-module-master/src/ngx_http_drizzle_output.c:188-293 | What a flushed output layer has given to nginx: the buffers hold exactly the submitted non-empty atoms, whole and in order, and the bytes are theirs |
| `Delivery.StreamingRefinesBatch` | drizzle-nginx-module-master/src/ngx_http_drizzle_processor.c:176-513 | For every result set, every cutting of fields into pieces (repeated empty first pieces included) and every placement of IO_WAIT, one atom is submitted for the header, each column, each row flag and each piece, and their bytes are those of the batch encoder |
| `Delivery.FinishedMeansComplete` | drizzle-nginx-module-master/src/ngx_http_drizzle_processor.c:516-553 | A client that stops, at whatever point of the replies, has submitted all atoms of the result: never a part, never more |
| `Delivery.WaitsDoNotMatter` | drizzle-nginx-module-master/src/ngx_http_drizzle_processor.c:397-512 | Removing every IO_WAIT changes neither the final state nor the atoms |
| `Delivery.FinishedIsFinal` | drizzle-nginx-module-master/src/ngx_http_drizzle_processor.c:97-107 | A finished client ignores further replies |
| `Delivery.FieldDelivered` | drizzle-nginx-module-master/src/ngx_http_drizzle_output.c:402-440 | Any cutting of a value gives one atom per non-empty piece; together they are one length word (all ones for NULL) followed by the data |
| `Delivery.RowsDelivered` | drizzle-nginx-module-master/src/ngx_http_drizzle_processor.c:390-490 | The rows give flag, fields, and the final zero flag, in order |
| `Delivery.ResultDelivered` | drizzle-nginx-module-master/src/ngx_http_drizzle_output.c:94-157 | Header, columns and rows together are the batch encoding, or the header alone without columns |
| `Delivery.PreludeIsSilent` | drizzle-nginx-module-master/src/ngx_http_drizzle_processor.c:190-291 | Connecting and setting names writes nothing |
| `Delivery.NothingBeforeTheHeader` | drizzle-nginx-module-master/src/ngx_http_drizzle_processor.c:190-296 | Until the user query is answered, and for a missing table, no byte is written |
| `Delivery.NamesAreSetOnce` | drizzle-nginx-module-master/src/ngx_http_drizzle_processor.c:239-287 | Over any replies set-names is answered at most once, and a result is read only on a connection that owes none |
| `Rds.RoundTrip` | drizzle-nginx-module-master/README.markdown:514-599 | A decoder written from the format description recovers every result set (errors, counts, column types and names, rows, NULL distinct from empty) and stops exactly behind it, if and only if names and error text are shorter than 2^16 and fields shorter than 2^32 - 1 |
| `Rds.DecodeOf` | drizzle-nginx-module-master/src/ngx_http_drizzle_output.c:94-157 | The decoder recovers the result set from the emitted bytes, whatever follows |
| `Rds.DecodeBound` | drizzle-nginx-module-master/README.markdown:551-599 | Nothing the decoder returns can exceed the field widths |
| `Rds.LongFieldReadsAsNull` | drizzle-nginx-module-master/src/ngx_http_drizzle_output.c:402-440 | A field of 2^32 - 1 bytes is read as NULL, with its data left over |
| `Rds.DecodeRowsOf` | drizzle-nginx-module-master/src/ngx_http_drizzle_output.c:365-452 | Rows are recovered up to the zero flag |
| `Rds.WordKeepsLowBytes` | drizzle-nginx-module-master/src/ngx_http_drizzle_output.c:94-157 | A word of a given width keeps the value modulo 2^(8 width), in either byte order |
| `Packing.PackingKeepsAtomsWhole` | drizzle-nginx-module-master/README.markdown:603-614 | However many atoms of whatever size, the packing keeps each one whole, in order and within the capacity of its buffer |
| `Packing.AddKeepsAtoms` | drizzle-nginx-module-master/src/ngx_http_drizzle_output.c:649-785 | One request and submit appends exactly the atom |
| `Packing.AddFits` | drizzle-nginx-module-master/src/ngx_http_drizzle_output.c:550-785 | One request and submit keeps every buffer within its capacity, oversize and recycled ones included |
| `Packing.AddKeepsBytes` | drizzle-nginx-module-master/src/ngx_http_drizzle_output.c:649-785 | One request and submit appends exactly the bytes of the atom |
| `Packing.FinishKeepsAtoms` | drizzle-nginx-module-master/src/ngx_http_drizzle_output.c:201-217 | The flush at the end of the stream closes the open buffer and loses nothing |
| `OutputBuffers.OutputLayer.constructor` | drizzle-nginx-module-master/src/ngx_http_drizzle_output.c:550-646 | An output layer starts empty |
| `OutputBuffers.OutputLayer.GetBuf` | drizzle-nginx-module-master/src/ngx_http_drizzle_output.c:579-613 | A recycled or a new buffer becomes the open one; it is in no other place |
| `OutputBuffers.OutputLayer.GetPostponed` | drizzle-nginx-module-master/src/ngx_http_drizzle_output.c:616-646 | The scratch area is large enough and never shrinks |
| `OutputBuffers.OutputLayer.Request` | drizzle-nginx-module-master/src/ngx_http_drizzle_output.c:550-576 | Room for the atom in the open buffer, or the scratch area exactly if the open buffer has less room than asked for |
| `OutputBuffers.OutputLayer.Write` | drizzle-nginx-module-master/src/ngx_http_drizzle_output.c:94-157 | Storing an atom in the granted room changes no byte already submitted |
| `OutputBuffers.OutputLayer.Submit` | drizzle-nginx-module-master/src/ngx_http_drizzle_output.c:649-785 | The submitted atom is appended whole; the loop that would split it over buffers is unreachable |
| `OutputBuffers.OutputLayer.SubmitPostponed` | drizzle-nginx-module-master/src/ngx_http_drizzle_output.c:659-717 | A postponed atom gets a new buffer large enough for it, behind the buffer that was open |
| `OutputBuffers.OutputLayer.Link` | drizzle-nginx-module-master/src/ngx_http_drizzle_output.c:770-782 | The open buffer moves to the end of the chain |
| `OutputBuffers.OutputLayer.Emit` | drizzle-nginx-module-master/src/ngx_http_drizzle_output.c:296-362 | One atom through both phases is one step of the packing |
| `OutputBuffers.OutputLayer.Drain` | nginx-master/src/core/ngx_buf.c:184-222 | nginx takes bytes in order and returns emptied buffers, reset, to the free list |
| `OutputBuffers.OutputLayer.OutputBufs` | drizzle-nginx-module-master/src/ngx_http_drizzle_output.c:188-293 | The chain is handed over whole and once; at the end of the stream the open buffer goes with it |
| `OutputBuffers.OutputLayer.EndStream` | drizzle-nginx-module-master/src/ngx_http_drizzle_output.c:201-217 | At the end of the stream a partly filled buffer is linked |
| `OutputBuffers.OutputLayer.BytesAreConserved` | drizzle-nginx-module-master/src/ngx_http_drizzle_output.c:188-293 | Bytes sent, being sent, chained and in the open buffer, read from the storage itself, are together the submitted atoms in order |
| `OutputBuffers.OutputLayer.BuffersAreOwnedOnce` | drizzle-nginx-module-master/src/ngx_http_drizzle_output.c:579-613 | No buffer is in two of: free, busy, chained, being filled; queued buffers stay within their storage |
| `OutputBuffers.OutputLayer.NothingIsLeftBehind` | drizzle-nginx-module-master/src/ngx_http_drizzle_output.c:201-217 | After the final flush every submitted byte was given to nginx |
| `Pool.Find` | drizzle-nginx-module-master/src/ngx_http_drizzle_keepalive.c:218-232 | The first cached item with the address, or none exists |
| `Pool.Save` | drizzle-nginx-module-master/src/ngx_http_drizzle_keepalive.c:296-351 | Saving keeps the two queues a partition of the items |
| `Pool.FreePeer` | drizzle-nginx-module-master/src/ngx_http_drizzle_upstream.c:860-903 | The release routine clears the connection, saves at most this one, and keeps the partition |
| `Pool.Finalize` | drizzle-nginx-module-master/src/ngx_http_drizzle_util.c:97-204 | Finalization leaves the request without a connection and keeps the partition |
| `Pool.NextReleasesOnce` | drizzle-nginx-module-master/src/ngx_http_drizzle_util.c:207-310 | A failing request releases its connection exactly once and never saves it, although the release routine is reached twice; the counter drops by one |
| `Pool.UnfinishedIsClosed` | drizzle-nginx-module-master/src/ngx_http_drizzle_keepalive.c:273-294 | A request that did not reach `done` (timed out, aborted, 500) has its connection closed, never saved |
| `Pool.NothingToRelease` | drizzle-nginx-module-master/src/ngx_http_drizzle_upstream.c:860-903 | A second release does nothing |
| `Pool.EveryItemOnce` | drizzle-nginx-module-master/src/ngx_http_drizzle_keepalive.c:132-157 | Every item is in exactly one of the two queues |
| `Pool.InitIsPartition` | drizzle-nginx-module-master/src/ngx_http_drizzle_keepalive.c:132-157 | The initial queues are a partition of the items |
| `Pool.UnlinkKeepsPartition` | drizzle-nginx-module-master/src/ngx_http_drizzle_keepalive.c:172-184 | Taking an item keeps the partition |
| `Keepalive.SrvConf.constructor` | drizzle-nginx-module-master/src/ngx_http_drizzle_keepalive.c:132-157 | The initialization loop puts all items in the free queue |
| `Keepalive.SrvConf.GetPeerSingle` | drizzle-nginx-module-master/src/ngx_http_drizzle_keepalive.c:160-203 | The newest cached item is taken, whatever its address; declined exactly if none is cached |
| `Keepalive.SrvConf.GetPeerMulti` | drizzle-nginx-module-master/src/ngx_http_drizzle_keepalive.c:206-256 | The first cached item with the wanted address is taken; declined exactly if there is none |
| `Keepalive.SrvConf.SaveConnection` | drizzle-nginx-module-master/src/ngx_http_drizzle_keepalive.c:296-351 | The connection goes to the front of the cache, in a free item or in that of the evicted oldest connection, which is closed |
| `Keepalive.SrvConf.FreePeer` | drizzle-nginx-module-master/src/ngx_http_drizzle_keepalive.c:259-353 | In place, the release routine does what `Pool.FreePeer` says |
| `Keepalive.SrvConf.Next` | drizzle-nginx-module-master/src/ngx_http_drizzle_util.c:207-310 | In place, a failing request closes its connection once |
| `Keepalive.SrvConf.CloseHandler` | drizzle-nginx-module-master/src/ngx_http_drizzle_keepalive.c:364-409 | An idle connection that closes leaves the cache, its item is free, the counter drops by one |
| `Keepalive.SrvConf.FreeConnection` | drizzle-nginx-module-master/src/ngx_http_drizzle_upstream.c:937-1004 | Closing drops the counter by one |
| `Keepalive.SrvConf.MoveToFree` | drizzle-nginx-module-master/src/ngx_http_drizzle_keepalive.c:172-184 | An item moves from the cache to the head of the free queue |
| `Worker.PoolAccounting` | drizzle-nginx-module-master/src/ngx_http_drizzle_upstream.c:618-755 | In every state of every run of interleaved requests, each open connection is with exactly one request or in exactly one cached item, and the unsigned counter equals, modulo the word size, the number of open connections less one for each failed event registration |
| `Worker.RejectionBounds` | drizzle-nginx-module-master/src/ngx_http_drizzle_upstream.c:618-634 | With overflow rejection the open connections exceed the pool size by at most the number of failed event registrations; without such failures the counter is exact, never exceeds the pool size, and a save never evicts |
| `Worker.FailureWrapsTheCounter` | drizzle-nginx-module-master/src/ngx_http_drizzle_upstream.c:724-844 | A failed event registration on an idle worker leaves the largest unsigned value in the counter |
| `Worker.WrappedForever` | drizzle-nginx-module-master/src/ngx_http_drizzle_upstream.c:618-634 | Once there are more failed registrations than open connections, rejection lets no run open a connection any more |
| `Worker.FailureClosesTheDoor` | drizzle-nginx-module-master/src/ngx_http_drizzle_upstream.c:618-634 | So after one failed registration on an idle worker every later connection is refused, in every run |
| `Worker.CachedConnections` | drizzle-nginx-module-master/src/ngx_http_drizzle_keepalive.c:273-353 | Every cached connection is open, came through `done`, and stores its number of completions and whether set-names was answered; the cache is ordered newest save first |
| `Service.IdleConnectionsAreClean` | drizzle-nginx-module-master/src/ngx_http_drizzle_processor.c:97-107 | Over every run of requests that hear replies, the last request on an idle connection heard its answer to the end, or that the table is gone; if it heard a delivery of a result set, it wrote exactly its encoding |
| `Service.RefinesWorker` | drizzle-nginx-module-master/src/ngx_http_drizzle_processor.c:97-107 | Every such run is, for the pool, one of the runs of the worker, so the laws above hold for it |
| `Service.StepValid` | drizzle-nginx-module-master/src/ngx_http_drizzle_processor.c:37-127 | Every reply, timeout, hang-up and idle close keeps requests and their dialogues in step, and lets only finished dialogues leave a connection in the cache |
| `Service.CompleteEffect` | drizzle-nginx-module-master/src/ngx_http_drizzle_keepalive.c:284-353 | Completion is the only way into the cache, and only for the own connection of the request |
| `Service.UnfinishedEffect` | drizzle-nginx-module-master/src/ngx_http_drizzle_util.c:97-310 | A request that ends in any other way leaves the idle connections as they are |
| `Worker.ReuseTakesNewest` | drizzle-nginx-module-master/src/ngx_http_drizzle_keepalive.c:160-256 | Reuse takes an idle connection out of the cache, with its address and what is stored about it: the most recently saved one, in multi mode of those with the address of the peer in turn |
| `Worker.EvictionDropsOldest` | drizzle-nginx-module-master/src/ngx_http_drizzle_keepalive.c:296-308 | Eviction closes the connection saved longest ago |
| `Worker.NamesAtMostOnce` | drizzle-nginx-module-master/src/ngx_http_drizzle_processor.c:239-287 | A connection answers at most one set-names query in its life, across pooling; a request with a character set that owes none is on a connection that answered one |
| `Worker.StepKeeps` | drizzle-nginx-module-master/src/ngx_http_drizzle_upstream.c:536-857 | Every handler keeps the invariant of the worker |
| `Worker.StartInv` | drizzle-nginx-module-master/src/ngx_http_drizzle_keepalive.c:132-157 | The worker starts in the invariant |
| `Charsets.OwnCharsetExactly` | drizzle-nginx-module-master/src/ngx_http_drizzle_keepalive.c:160-256 | Over all runs, every request that sends no set-names query is served in the character set that the peer in turn configures, or in none if it configures none, if and only if nothing is pooled or the peers that share connections agree: those at one address in multi mode, all of them in single mode |
| `Charsets.SingleKeepsOpeners` | drizzle-nginx-module-master/src/ngx_http_drizzle_keepalive.c:160-203 | In single mode, in every run, an idle connection is in exactly the character set of the peer that opened it, or in none if that peer configures none |
| `Charsets.OwingSetsOwn` | drizzle-nginx-module-master/src/ngx_http_drizzle_processor.c:239-287 | In every run, the answer to an owed set-names query puts the connection into the character set of the own peer of the request |
| `Charsets.AlikeIsEnough` | drizzle-nginx-module-master/src/ngx_http_drizzle_keepalive.c:160-256 | With agreeing peers, or without a pool, no arrival strays |
| `Charsets.StrayOne` | drizzle-nginx-module-master/src/ngx_http_drizzle_keepalive.c:160-256 | The reuse that strays: a peer with another character set, or none, takes that connection and sends no set-names query |
| `Charsets.ParkedFor` | drizzle-nginx-module-master/src/ngx_http_drizzle_keepalive.c:309-351 | For any two peers, the first with a character set, there is a run that leaves its connection idle when it is the turn of the second |
| `Calendar.DayNumberCountsDays` | drizzle7-2011.07.21/drizzled/calendar.cc:101-110 | The closed formula gives the counted number of days, if and only if `year + 4800` does not wrap |
| `Calendar.DateRoundTrip` | drizzle7-2011.07.21/drizzled/calendar.cc:101-173 | Every calendar date up to the last unwrapped year survives the conversion to a day number and back |
| `Calendar.DateRoundTripExact` | drizzle7-2011.07.21/drizzled/calendar.cc:101-173 | Over all 32-bit years, exactly which dates survive: all but those of the years that wrap whose shadow year has no such day |
| `Calendar.WrappedLossOfLeapDay` | drizzle7-2011.07.21/drizzled/calendar.cc:101-173 | A leap day whose shadow year lacks one comes back as the first of March |
| `Calendar.DayNumberRoundTrip` | drizzle7-2011.07.21/drizzled/calendar.cc:148-173 | Every day number from 1721426 to the last day gives a calendar date that has this number; beyond it none does |
| `Calendar.DateWithNumber` | drizzle7-2011.07.21/drizzled/calendar.cc:148-173 | Every such number is the number of some date |
| `Calendar.AbsoluteDays` | drizzle7-2011.07.21/drizzled/calendar.cc:119-195 | Absolute days are the counted days, and day 1 is 0001-01-01 |
| `Calendar.YearsInClosedForm` | drizzle7-2011.07.21/drizzled/calendar.cc:101-110 | The leap-day terms count the days of all earlier years |
| `Calendar.TomorrowIsNext` | drizzle7-2011.07.21/drizzled/calendar.cc:279-287 | The next date has the next day number and the next weekday |
| `Calendar.DayNumberInOrder` | drizzle7-2011.07.21/drizzled/calendar.cc:101-110 | Day numbers order dates exactly as year, month, day do |
| `Calendar.JanuaryFirsts` | drizzle7-2011.07.21/drizzled/calendar.cc:241-252 | Over all 32-bit years that have a successor, consecutive January firsts are the year length apart if and only if the year is neither 0 nor the last unwrapped one or, behind that, its shadow year has the same length |
| `Calendar.ValidityTest` | drizzle7-2011.07.21/drizzled/calendar.cc:297-321 | The validity test accepts exactly the calendar dates and, besides, every day 0 |
| `Calendar.EpochRangeIsArithmetic` | drizzle7-2011.07.21/drizzled/calendar.cc:336-379 | For every calendar date of a 32-bit year and every time of day, the range test holds exactly if the computed UNIX time lies in 0 .. 2^31 - 1 |
| `Calendar.PeriodRoundTrip` | drizzle7-2011.07.21/drizzled/calendar.cc:471-503 | Converting a period to months and back is the identity exactly on 0 and on four-digit periods with a month 1 to 12 |
| `LineEditor.Editor.AddLine` | drizzle7-2011.07.21/client/drizzle.cc:2176-2433 | For every line in an array with its terminating NUL that is not read past this NUL, editing it in place gives exactly what scanning a copy gives: no unread character is overwritten, nothing behind the NUL is read, the newline fits |
| `LineEditor.Editor.ScanLoop` | drizzle7-2011.07.21/client/drizzle.cc:2191-2418 | The loop runs to the NUL and ends, after finitely many turns, in the result of the scan |
| `LineEditor.Editor.OneTurn` | drizzle7-2011.07.21/client/drizzle.cc:2193-2417 | Every branch of the loop body does what the scanner says, with the write position never past the read position |
| `LineEditor.Editor.CommentOrPlainTurn` | drizzle7-2011.07.21/client/drizzle.cc:2326-2417 | The last four branches: line comments, comment marks and plain characters |
| `LineEditor.Editor.MultiByteTurn` | drizzle7-2011.07.21/client/drizzle.cc:2202-2217 | A multi-byte character is copied whole or skipped whole |
| `LineEditor.Editor.BackslashTurn` | drizzle7-2011.07.21/client/drizzle.cc:2218-2282 | Backslash pairs in strings, `\N`, client commands and unknown commands |
| `LineEditor.Editor.CommandTurn` | drizzle7-2011.07.21/client/drizzle.cc:2231-2268 | A command flushes, fires and skips its parameters |
| `LineEditor.Editor.DelimiterTurn` | drizzle7-2011.07.21/client/drizzle.cc:2283-2325 | A delimiter fires the statement, with a preserved trailing comment |
| `LineEditor.Editor.LineCommentTurn` | drizzle7-2011.07.21/client/drizzle.cc:2326-2360 | A line comment ends the line |
| `LineEditor.Editor.CommentMark` | drizzle7-2011.07.21/client/drizzle.cc:2361-2396 | Opening and closing a comment, with the owed space still fitting in place |
| `LineEditor.Editor.PlainTurn` | drizzle7-2011.07.21/client/drizzle.cc:2397-2417 | Other characters, with quote and server-side comment state |
| `LineEditor.Editor.EndLine` | drizzle7-2011.07.21/client/drizzle.cc:2419-2432 | The end of a line and its length limit |
| `Scanner.LinesKeepApart` | drizzle7-2011.07.21/client/drizzle.cc:2361-2417 | After any number of lines, quote state and comment state are never both set |
| `Scanner.CommentIsSentExactly` | drizzle7-2011.07.21/client/drizzle.cc:2326-2360 | Wherever the loop of a line reaches a line comment, a statement is fired for it if and only if comments are preserved and the flushed buffer was not empty; it is that buffer followed by the comment, and the buffer is empty afterwards; a comment by itself stays in the buffer with a newline, and without preserved comments the line ends as if it were not there |
| `Scanner.LoneCommentStays` | drizzle7-2011.07.21/client/drizzle.cc:2339-2357 | A line that is only a comment sign, on an empty buffer with preserved comments, fires nothing and stays in the buffer |
| `Scanner.OverrunExactly` | drizzle7-2011.07.21/client/drizzle.cc:2191-2217 | A line, which ends at the first NUL of the text, is read past this NUL if and only if the loop takes a turn at a character that the NUL cuts off |
| `Scanner.CutLineOverruns` | drizzle7-2011.07.21/client/drizzle.cc:2201-2217 | A line of whole characters and one that is cut off is read past its NUL if and only if the scan of the whole ones reaches their end |
| `Scanner.LinesEndAtTheirEnd` | drizzle7-2011.07.21/client/drizzle.cc:2201-2217 | In particular a text without truncated characters before its first NUL is never read past it |
| `Scanner.TruncatedLineOverruns` | drizzle7-2011.07.21/client/drizzle.cc:2201-2217 | A leading byte at the end of a line makes the scanner read past the NUL |
| `Scanner.WholeCharactersNeverOverrun` | drizzle7-2011.07.21/client/drizzle.cc:2191-2217 | The same for the loop alone, from any state |
| `DumpReload.DumpIsReloaded` | drizzle7-2011.07.21/client/drizzledump_data.cc:254-408 | A dump of rows whose text values the client takes for one literal each (all well-formed UTF-8), in extended and single-row mode and wherever the byte limit falls, loaded by the client: the statements fired are the dumped ones, one per line, up to the first line of `max_input_line` bytes or more, and the client ends outside quotes with nothing pending; all of them are fired if and only if every line is shorter, and the server reads each row once and in order if and only if every line up to the last INSERT is |
| `DumpReload.LongValueIsLost` | drizzle7-2011.07.21/client/drizzle.cc:2085-2090 | One text value of that many bytes is lost, and the client stops as at the end of the file, outside quotes and with an empty buffer |
| `DumpReload.LinesAreRead` | drizzle7-2011.07.21/client/linebuffer.cc:55-63 | Of a file of statements, the reader delivers their lines up to the first that is too long |
| `DumpReload.StatementsRestore` | drizzle7-2011.07.21/client/drizzledump_data.cc:289-399 | The first statements of a dump hold all its rows, once and in order, if and only if no INSERT is missing from them |
| `DumpReload.ServerReadsInsert` | drizzle7-2011.07.21/client/drizzledump_data.cc:310-386 | The server reads verb, table name and rows back from one statement, whatever the bytes of the values |
| `DumpReload.LineFires` | drizzle7-2011.07.21/client/drizzle.cc:2283-2325 | A line holding one clean statement and the delimiter fires that statement and nothing else |
| `DumpReload.EnableKeysNames` | drizzle7-2011.07.21/client/drizzledump_data.cc:403-404 | The closing ALTER TABLE, which quotes the raw name, names the table if and only if the name holds no quote |
| `DumpInserts.DumpData` | drizzle7-2011.07.21/client/drizzledump_data.cc:254-408 | The writer produces the opening statements, the grouped INSERTs and the closing statements |
| `DumpInserts.WriteStatements` | drizzle7-2011.07.21/client/drizzledump_data.cc:289-399 | The row loop with `new_insert`, `first` and `byte_counter` writes exactly the statements of the grouping, each closed, no row split |
| `DumpInserts.WriteFields` | drizzle7-2011.07.21/client/drizzledump_data.cc:327-386 | The column loop writes the values with their commas and counts their bytes |
| `DumpInserts.WriteField` | drizzle7-2011.07.21/client/drizzledump_data.cc:329-382 | NULL, integer, hexadecimal and quoted values, and what each adds to the counter |
| `DumpInserts.FieldSizes` | drizzle7-2011.07.21/client/drizzledump_data.cc:297-299 | The sizes of a row |
| `DumpInserts.GroupsKeepRows` | drizzle7-2011.07.21/client/drizzledump_data.cc:289-399 | Grouping loses no row, repeats none and keeps their order |
| `DumpInserts.GroupsEndWhenFull` | drizzle7-2011.07.21/client/drizzledump_data.cc:387-396 | A statement ends exactly at the first row that fills it, or at the last row |
| `DumpQuoting.EscapeText` | drizzle7-2011.07.21/client/drizzledump_data.cc:430-473 | The escaping loop computes the escaped text |
| `DumpQuoting.ServerReadsLiteral` | drizzle7-2011.07.21/client/drizzledump_data.cc:430-473 | The server reads every quoted value back, malformed UTF-8 included, and stops at its closing quote |
| `ClientText.LiteralClosesExactly` | drizzle7-2011.07.21/client/drizzle.cc:2191-2417 | Every turn inside a quoted value, up to its last quote, is inside the literal, if and only if a walk over the escaped text by characters and backslash pairs meets no quote and ends with a unit; no value puts a NUL into the line |
| `ClientText.ClosesExactly` | drizzle7-2011.07.21/client/drizzle.cc:2201-2230 | The same for any text between any quotes, with and without backslash escapes, if and only if the walk succeeds and the text holds no NUL |
| `ClientText.LiteralSurvives` | drizzle7-2011.07.21/client/drizzle.cc:2191-2417 | Such a value, scanned outside quotes and comments, is copied as it stands, fires nothing and ends outside quotes |
| `ClientText.WholeCharactersAreUnbroken` | drizzle7-2011.07.21/client/drizzledump_data.cc:430-473 | Values of whole characters are such values, so well-formed UTF-8 always survives |
| `ClientText.MalformedLiteralBreaks` | drizzle7-2011.07.21/client/drizzle.cc:2201-2217 | A lone leading byte before a quote makes the client end the literal too early |
| `DumpQuoting.ConvertHex` | drizzle7-2011.07.21/client/drizzledump_data.cc:410-427 | The hexadecimal loop computes the hexadecimal literal |
| `DumpQuoting.ServerReadsHex` | drizzle7-2011.07.21/drizzled/sql_lex.cc:780-797 | The server reads hexadecimal digits back to the bytes |
| `DumpQuoting.CleanTableName` | drizzle7-2011.07.21/client/drizzledump_data.cc:67-78 | Replacing quotes one by one in place doubles every quote |
| `DumpQuoting.ServerReadsName` | drizzle7-2011.07.21/drizzled/sql_lex.cc:872-903 | The server reads every quoted name of well-formed text without NUL back |
| `ClientText.NameSurvivesExactly` | drizzle7-2011.07.21/client/drizzle.cc:2397-2417 | A quoted name of whole characters is copied as it stands and ends outside quotes, whatever follows, if and only if it holds no NUL and backslash escapes are off or, read in pairs, no backslash is followed by a backtick or ends the name |
| `ClientText.NameSurvives` | drizzle7-2011.07.21/client/drizzle.cc:2397-2417 | The one half: such a name is copied |
| `ClientText.UnsafeNameBreaks` | drizzle7-2011.07.21/client/drizzle.cc:2218-2230 | The other half: the first unsafe backslash changes the outcome of the line |
| `ClientText.NulBreaksName` | drizzle7-2011.07.21/client/drizzle.cc:2191-2191 | A name that holds a NUL is never copied, because the line ends there |
| `ClientText.NeverMended` | drizzle7-2011.07.21/client/drizzle.cc:2191-2417 | Once the client is outside the name too early, the rest of the name fires an event, flushes, or leaves it inside quotes |
| `ClientText.BackslashedNameBreaks` | drizzle7-2011.07.21/client/drizzle.cc:2218-2230 | A name that is a lone backslash does not survive; one with a backslash before a letter does |
| `DumpQuoting.HalvingUndoesDoubling` | drizzle7-2011.07.21/drizzled/sql_lex.cc:319-347 | Halving doubled quotes undoes doubling them |
| `ServerText.ReadsByBytes` | drizzle7-2011.07.21/drizzled/sql_lex.cc:353-472 | The server reads every query, malformed UTF-8 included, as if it did not know characters |
| `QuoteDoubling.EscapeQuotes` | drizzle7-2011.07.21/drizzled/charset.cc:279-329 | The buffer holds the escaped form of what was taken and a NUL, within its limit, and is unchanged behind it; the maximal value is returned exactly if something was left out, else the length |
| `QuoteDoubling.LongestPrefixIsTaken` | drizzle7-2011.07.21/drizzled/charset.cc:287-327 | What is taken is the longest prefix of whole characters whose escaped form fits |
| `QuoteDoubling.AllIsTaken` | drizzle7-2011.07.21/drizzled/charset.cc:284-284 | Everything is taken if and only if it fits, and always with the default limit of twice the length |
| `QuoteDoubling.HalvingRecovers` | drizzle7-2011.07.21/drizzled/charset.cc:304-315 | Halving the doubled quotes, character by character, gives back what was taken |
| `QuoteDoubling.WriteCharacters` | drizzle7-2011.07.21/drizzled/charset.cc:287-327 | The loop takes exactly that prefix |
| `QuoteDoubling.NextCharacter` | drizzle7-2011.07.21/drizzled/charset.cc:290-325 | The three branches and their limit tests |
| `ImportOptions.FieldEscape` | drizzle7-2011.07.21/client/drizzleimport.cc:294-315 | The loop with the toggled backslash flag computes the escaped option |
| `ImportOptions.ServerReadsOption` | drizzle7-2011.07.21/client/drizzleimport.cc:287-315 | For every option the literal ends at its last quote and the server reads what the user means, an unpaired last backslash included |

## Left out

- libdrizzle: modelled by its contract. Calls answering IO_WAIT resume without loss, field pieces arrive contiguously and are shorter than 2^32, a field is a NULL pointer exactly for SQL NULL.
- nginx core: the event loop, timers, sockets, logging and memory pools; the output filter takes a chain in order and returns emptied buffers, reset. Allocation failure is not modelled.
- The HTTP response header that is sent before the first output, and `std_col_type`'s mapping beyond what the encoder needs.
- What memory holds after the double release that follows a failed event registration: only the counter is modelled.
- Worker.RejectionBounds: assumes that failed registrations and pool size together do not exceed the word size, 2^64 here, because beyond that the counter wraps a second time.
- Worker.CachedConnections: that a connection came through `done` is recorded by the completion event; that the request had then heard its answer to the end is proved in `Service.IdleConnectionsAreClean`.
- Packing.PackingKeepsAtomsWhole: atoms without bytes are not listed in a buffer's group, because they leave no trace in the output.
- The effects of client commands inside `add_line` (sourcing files, changing the delimiter, history, pager): they are recorded as events, and an event may make the client stop.
- LineEditor.Editor.AddLine: says nothing about lines that the source reads past their NUL, because what lies there is not part of the line; `Scanner.OverrunExactly` says which these are. The array ends with the NUL, so that reading behind it would be out of bounds.
- ClientText.NameSurvivesExactly: is stated for names of whole characters and a delimiter that does not start with a backtick.
- DumpReload.DumpIsReloaded: assumes a name that the server can read, that the client copies and that holds no newline, and, if keys are disabled, no quote; text values that stay one literal; and integer columns that hold integers. The lines are read as the standard describes `getline` into a buffer of `max_input_line` bytes.
- Named commands at the start of a line: the client tries none on a line that holds the delimiter, as every line of a dump but the empty one does.
- Lossy dump columns (empty ENUM, BOOLEAN, date and time conversion) and the range check that skips a value; `byte_counter` is unbounded in the model.
- The lines of a dump other than those of `operator<<` for the data: schema, comments and the settings around them.
- `add_load_option`: options that start with 0x are passed on unquoted.
- The thread counter of the import program, the status handler's two passes, and `get_num_size`: only easy members.
- The Julian calendar, whose year length is not a day count in the source, week numbers, which go through the C library, and the 64-bit range of day numbers.
- The checker and quoting stubs of the nginx module, directive and option parsing, and the other repositories in the tree.
