# A verified model of io-streams' buffered duplexers, pumps, pipes and stdin claim

This project models four parts of io-streams and proves what they keep.

**The buffered duplexers.** `BufDuplexerBackend` holds a bounded writer buffer and a reader
buffer in front of a device. `BufDuplexer` adds a flush before every read;
`BufReaderLineWriter` adds line buffering through a shim. The specification is small: the
device's bytes followed by the buffered bytes are the bytes acknowledged, in order; completed
lines reach the device; a request is out before its response is awaited; an operation fails only
because its last device call did; and a destructor never offers a byte twice. The model follows
every branch, every partial write, every error exit and every panic.

**The half-duplex pumps** `read_first` and `write_first`, as methods with the nested loops and
labelled breaks of the original. The calls they make on their two endpoints, as the endpoints'
records show them, are those of a small machine about which conservation, mirroring and turn-taking
are proved.

**The piped writers and readers** as interleavings of an owner and worker threads over bounded
pipes, writers nested to any depth.

**The stdin claim** as interleavings of any number of claimants, their locker threads and
outside users of the standard library's lock.

## Layout

- `Bytes.dfy`: byte strings, the two byte searches, completed lines, the line discipline.
- `Device.dfy`: the unreliable device and the record of the calls made to it. The record keeps,
  for each call, the panic flag and the writer buffer of that moment, so that ordering and
  panic-safety are properties of the record.
- `Outgoing.dfy`: the outgoing half of the buffers as a value, and what each operation promises.
- `BufDuplexerBackend.dfy`, `BufDuplexer.dfy`: the buffers and the public block-buffered type.
- `LineRules.dfy`, `LineShim.dfy`, `LineWriter.dfy`: what line buffering retains, the shim, and
  the public line-buffered type.
- `Incoming.dfy`: the incoming half as a value, and what each operation promises about it.
- `Runs.dfy`: whole runs of public operations on both halves.
- `Lives.dfy`: whole lives of the two public duplexers, destructor included.
- `Pumps.dfy`, `PipedWriters.dfy`, `PipedReaders.dfy`, `StdinLockers.dfy`: the protocols.

## What is assumed of the device and of the system

- A device write that answers `Ok(n)` has `n` no larger than what it was offered and took exactly
  the first `n` bytes; one that answers an error took nothing; one that panics took some prefix.
  A `write_all` that fails took some prefix. `Ok(0)`, short writes, `Interrupted`, other errors
  and panics may come at any call.
- A device read returns nothing for a window with room only at the end of the input, and one that
  fails or panics takes nothing off the input. The input is some fixed byte string of any length.
- `Interrupted` may come any number of times (the device's `patience`, any number at the start),
  but not for ever; otherwise the retry loops would not end.
- A panic is an outcome of a call and ends the object's life: what follows is the destructor.
- `Vec::with_capacity(n)` has capacity exactly `n`; the allocator may give more.
- The option that holds the device is the flag `detached`. Whether the device reports vectored
  writes is one boolean.
- A pipe holds at most its capacity, at least one byte; a write into one with room takes between
  one byte and the room left. Workers are scheduled arbitrarily.
- The bytes of `StreamReader::bytes` are always ready to be copied. A boxed reader of another kind
  may itself wait for ever, and then so does the reader of its pipe.

## What the proofs show about the code

- The pumps take a read that does not fill the buffer for the end of a message. So an interrupted
  read, or one that returns only a part of what was said, turns the direction around too early, and
  a message whose length is a multiple of 8192 makes the pump read past its end. The turns of a
  conversation are kept exactly when none of these occurs (`Pumps.TurnsKeptIff`).
- With a reader buffer of capacity 0, `read_until` returns nothing at once although input
  remains. For every other capacity it does not depend on how the input is chunked.
- A spawn that fails in `StdinLocker::new` leaves the claim flag set for good, so an idle system
  can be claimed exactly when no spawn ever failed (`StdinLockers.ClaimableIff`). The
  documentation says that `new` fails if an instance already exists.
- The shim's comments say that it flushes a buffer that contains a newline; the code looks only
  at the last byte. The two agree in every reachable state, by the line discipline.
- Direct writes in the shim are made without the panic flag. That is safe because the buffer is
  empty at each of them, which the record of calls proves.

## Model

| member | source | states |
|---|---|---|
| BufDuplexers.BufDuplexerBackend.WithCapacities | src/buffered/buf_duplexer.rs:345-365 | A new pair of buffers is empty, has the given capacities and owns the device. |
| BufDuplexers.BufDuplexerBackend.SendRetained | src/buffered/buf_duplexer.rs:412-431 | The flush loop offers each time exactly what no earlier call got taken, retries interruptions only, and ends sent, at `Ok(0)` as `WriteZero`, at another error, or in a panic with the flag set. |
| BufDuplexers.BufDuplexerBackend.FlushBuf | src/buffered/buf_duplexer.rs:374-432 | On every way out, unwinding included, the buffer keeps exactly the bytes the guard did not consume; the outgoing stream is unchanged unless a call panicked. |
| BufDuplexers.BufDuplexerBackend.WriteToBuf | src/buffered/buf_duplexer.rs:437-442 | Appends the longest prefix that fits and reports its length. |
| BufDuplexers.BufDuplexerBackend.MakeRoom | src/buffered/buf_duplexer.rs:517-519 | Flushes exactly when the argument would not fit behind what is buffered, and fails only as the flush did. |
| BufDuplexers.BufDuplexerBackend.Write | src/buffered/buf_duplexer.rs:516-530 | `Ok(n)` adds the first n bytes to the stream, an error none; where the bytes go is determined by the two capacity tests; new bytes reach the device in at most one call, made with nothing buffered; the write fails only as its last device call did, and makes no call after one that failed. |
| BufDuplexers.BufDuplexerBackend.WriteAll | src/buffered/buf_duplexer.rs:532-550 | Success adds the whole argument, an error some prefix; where the bytes go is determined by the two capacity tests; it fails only as its last device call did. |
| BufDuplexers.BufDuplexerBackend.WriteVectored | src/buffered/buf_duplexer.rs:552-568 | Refines a write of the concatenation of the slices. |
| BufDuplexers.BufDuplexerBackend.Flush | src/buffered/buf_duplexer.rs:577-579 | Success means that the device holds the whole stream and was flushed, once, after the last byte; the device is not flushed if the buffer could not be sent; the flush fails only as its last device call did. |
| BufDuplexers.BufDuplexerBackend.FillBuf | src/buffered/buf_duplexer.rs:683-694 | Keeps the incoming stream; calls the device, once and for the whole buffer, exactly when nothing is buffered, and fails only as that call did; an empty answer means the end of the input; a failure moves nothing. |
| BufDuplexers.BufDuplexerBackend.Consume | src/buffered/buf_duplexer.rs:696-698 | Takes exactly the skipped bytes off the incoming stream, and never goes past what is buffered. |
| BufDuplexers.BufDuplexerBackend.Read | src/buffered/buf_duplexer.rs:614-625 | With bytes buffered it hands out as many as fit and makes no call; otherwise it makes one, with the caller's window exactly when that is no smaller than the buffer, and hands out as much of the answer as fits; what is copied out followed by what remains is the incoming stream; the rest of the destination is untouched; the read fails only as its device call did, changing nothing. |
| BufDuplexers.BufDuplexerBackend.ReadVectored | src/buffered/buf_duplexer.rs:627-639 | The same for a list of destinations, laid end to end. |
| BufDuplexers.GatherAt | src/buffered/buf_duplexer.rs:627-639 | The contents of a list of destinations hold each destination where it belongs, the first one's first. |
| BufDuplexers.BufDuplexerBackend.ReadUntil | src/buffered/buf_duplexer.rs:665-699 | Appends the incoming stream through the first delimiter, or all of it at its end, whatever the chunking, and advances the stream by exactly that; calls the device, each time for the whole buffer, only while neither what was buffered nor what it got has the delimiter, so not at all when it is buffered; retries interruptions only, and fails only as its last call did, having handed out just what it had got; nothing when the reader buffer has no capacity. |
| BufDuplexers.BufDuplexerBackend.IntoInner | src/buffered/buf_duplexer.rs:472-477 | Success moves the device out holding the whole stream; an error keeps the device and the stream; the calls are those of the flush. |
| BufDuplexers.BufDuplexerBackend.Drop | src/buffered/buf_duplexer.rs:729-736 | After a panic in a device write, or after the device was moved out, the destructor makes no call; otherwise its calls are those of a whole flush of the buffer. |
| Outgoing.DrainingOffersTheRest | src/buffered/buf_duplexer.rs:388-427 | At every call of a flush, what was delivered before it followed by what it offers is the stream: no byte is offered after it was taken, none is skipped. |
| Outgoing.FlushingStep | src/buffered/buf_duplexer.rs:414-430 | One round of the flush loop keeps the account of what was sent, whatever the device answers. |
| Outgoing.DrainedConserves | src/buffered/buf_duplexer.rs:374-432 | A flush splits the buffer into what the device took and a suffix still buffered; it succeeds exactly when nothing is left; only a call that panics can have taken bytes still buffered. |
| Outgoing.FlushedKeepsStream | src/buffered/buf_duplexer.rs:374-432 | A flush acknowledges nothing, loses nothing, sends no new bytes and reads nothing. |
| Outgoing.DrainedCalls | src/buffered/buf_duplexer.rs:414-430 | A flush makes only writes of retained bytes, ends exactly as its last call did, and makes no call after one that failed other than by an interruption. |
| Outgoing.DirectWriteIsPlaced | src/buffered/buf_duplexer.rs:516-525 | A direct write after the room test acknowledges exactly what the device took, behind everything acknowledged before. |
| Outgoing.DirectWriteAllIsPlaced | src/buffered/buf_duplexer.rs:532-545 | The same for a direct `write_all`, for which a failure acknowledges some prefix. |
| Outgoing.BufferingIsPlaced | src/buffered/buf_duplexer.rs:526-529 | Buffering acknowledges the argument whole and stays within the capacity. |
| Runs.WritesArePanicSafe | src/buffered/buf_duplexer.rs:404-431 | Each device write made in a run, whenever it was made, was made with the panic flag set or with nothing buffered; one that offered new bytes found nothing buffered, one that offered old bytes offered the end of the buffer. |
| Devices.GatedReadFollowsFlush | src/buffered/buf_duplexer.rs:582-597 | Each gated read in a disciplined record comes after a flush that succeeded, with only reads in between, and found nothing buffered. |
| Devices.DeliveredGrows | src/buffered/buf_duplexer.rs:412-431 | What the device took is never taken back by later calls. |
| Bytes.CompletedLinesDelivered | src/buffered/buf_reader_line_writer_shim.rs:254-282 | Everything through the last newline of a stream is delivered if and only if what is still buffered has no newline. |
| Bytes.SuffixKeepsDiscipline | src/buffered/buf_reader_line_writer_shim.rs:45-50 | What a partial flush leaves still shows a complete line at its last byte. |
| Bytes.ThroughResumes | src/buffered/buf_duplexer.rs:665-670 | Searching a stream for a delimiter piece by piece finds what searching it whole does. |
| Incoming.FilledThenConsumed | src/buffered/buf_duplexer.rs:619-624 | Filling the buffer and taking from it what fits the destination is a read of the incoming stream. |
| Incoming.PieceTaken | src/buffered/buf_duplexer.rs:665-670 | Each piece taken from the buffer either goes on with the search or ends it exactly at the delimiter or at the end of the input, whatever its size. |
| Incoming.SearchGoesOn | src/buffered/buf_duplexer.rs:665-699 | One more piece, from the buffer or from one call, keeps the account of the calls made and of the bytes got, or ends the search with it. |
| LineRules.TailIsOptimal | src/buffered/buf_reader_line_writer_shim.rs:120-131 | With newlines unwritten, the retained tail is the longest prefix of the unwritten data that ends a line and fits, or exactly as much as fits when there is none. |
| LineRules.TailKeepsDiscipline | src/buffered/buf_reader_line_writer_shim.rs:120-134 | What is retained ends in a newline if it has one, and has none once all lines are out. |
| LineRules.LinesThenTail | src/buffered/buf_reader_line_writer_shim.rs:92-134 | The lines out in one call and the tail retained: the reply counts exactly the prefix of the argument that was accepted. |
| LineRules.LinesRefused | src/buffered/buf_reader_line_writer_shim.rs:99-106 | When that call takes nothing or fails, nothing is acknowledged or retained. |
| LineRules.SliceBuffered | src/buffered/buf_reader_line_writer_shim.rs:229-234 | Buffering one more slice extends a contiguous prefix; a slice of which nothing is taken means that the buffer is full. |
| LineRules.SlicesThenTail | src/buffered/buf_reader_line_writer_shim.rs:204-236 | Line slices taken whole and what fits of the others: a vectored write of a prefix of the concatenation. |
| LineRules.SlicesRefused | src/buffered/buf_reader_line_writer_shim.rs:211-225 | Line slices taken in part or refused: exactly what was taken is acknowledged, nothing is retained. |
| LineRules.FirstSliceWrite | src/buffered/buf_reader_line_writer_shim.rs:173-179 | Writing the first non-empty slice acknowledges a prefix of the concatenation. |
| LineRules.PlainWriteIsLineWrite | src/buffered/buf_reader_line_writer_shim.rs:74-77 | A partial line is written plainly, after a flush when a complete line is buffered, and keeps the line discipline. |
| LineRules.BufferedLinesOut | src/buffered/buf_reader_line_writer_shim.rs:268-277 | Lines merged into the buffer and flushed are out, or some prefix of them was accepted. |
| LineRules.LinesThenRest | src/buffered/buf_reader_line_writer_shim.rs:263-280 | Lines out and then the rest written: every completed line of the whole stream is delivered. |
| LineShims.BufReaderLineWriterShim.FlushIfCompletedLine | src/buffered/buf_reader_line_writer_shim.rs:45-50 | Looking at the last byte flushes exactly when a newline is buffered anywhere; it fails only as the flush did. |
| LineShims.BufReaderLineWriterShim.Write | src/buffered/buf_reader_line_writer_shim.rs:69-135 | `Ok(n)` acknowledges the first n bytes, an error none; at most one call offers new bytes, exactly the complete lines with nothing buffered; when it takes them all, as much of the partial line as fits is retained, when it takes some, the longest prefix of the rest that ends a line and fits, or as much as fits; the line discipline holds after every exit; the write fails only as its last device call did, and makes no call after one that failed. |
| LineShims.BufReaderLineWriterShim.WriteVectored | src/buffered/buf_reader_line_writer_shim.rs:170-237 | The same for the concatenation of any slice list, with the branches for a device without vectored writes, no newline, and lines before a tail. |
| LineShims.BufReaderLineWriterShim.WriteSlices | src/buffered/buf_reader_line_writer_shim.rs:204-236 | The slices through the last one with a newline are offered in one call; if it takes them whole, as much of the bytes after them as fits is retained, else nothing. |
| LineShims.BufReaderLineWriterShim.BufferSlices | src/buffered/buf_reader_line_writer_shim.rs:229-234 | The lazy loop buffers the longest prefix of the concatenation that fits, though it stops at the first slice of which nothing fits. |
| LineShims.BufReaderLineWriterShim.WriteFirstSlice | src/buffered/buf_reader_line_writer_shim.rs:173-179 | A device without vectored writes is given the first non-empty slice, whole, as a line write; nothing is done if there is none. |
| LineShims.BufReaderLineWriterShim.WriteAll | src/buffered/buf_reader_line_writer_shim.rs:254-282 | Success means that every completed line of everything accepted ever has reached the device, on all three paths, and fixes what is buffered; an error acknowledges some prefix and is that of the last device call. |
| LineShims.BufReaderLineWriterShim.WriteAllLines | src/buffered/buf_reader_line_writer_shim.rs:266-277 | Complete lines go past an empty buffer in one call, and through a non-empty one otherwise, with a call of their own only if they are no smaller than the buffer; success leaves nothing buffered. |
| LineWriters.BufReaderLineWriter.Read | src/buffered/buf_reader_line_writer.rs:343-348 | The flush and its outcome are stated with the state in between: only when it succeeds is the device read, behind it; when it fails the incoming half does not change at all. What is put into the destination followed by what remains is the incoming stream. |
| LineWriters.BufReaderLineWriter.ReadVectored | src/buffered/buf_reader_line_writer.rs:351-356 | The same for a list of destinations. |
| LineWriters.BufReaderLineWriter.ReadUntil | src/buffered/buf_reader_line_writer.rs:408-413 | The same, and appends exactly the incoming stream through the delimiter. |
| LineWriters.BufReaderLineWriter.FillBuf | src/buffered/buf_reader_line_writer.rs:398-400 | Shows what is buffered, filled if it was empty, without flushing and without touching the outgoing half. |
| LineWriters.BufReaderLineWriter.Consume | src/buffered/buf_reader_line_writer.rs:403-405 | Takes bytes off the front of what is buffered, at most all of it. |
| LineWriters.BufReaderLineWriter.IntoInner | src/buffered/buf_reader_line_writer.rs:227-231 | Success gives the device back holding the whole stream; an error keeps the stream and the line discipline. |
| LineWriters.BufReaderLineWriter.Write | src/buffered/buf_reader_line_writer.rs:263-306 | The public write is the shim's. |
| LineWriters.BufReaderLineWriter.WriteAll | src/buffered/buf_reader_line_writer.rs:286-327 | The public `write_all` is the shim's. |
| LineWriters.BufReaderLineWriter.WriteVectored | src/buffered/buf_reader_line_writer.rs:275-316 | The public vectored write is the shim's. |
| LineWriters.BufReaderLineWriter.Flush | src/buffered/buf_reader_line_writer.rs:270-311 | The public flush is the buffers'. |
| Lives.PerformAll | src/buffered/buf_reader_line_writer.rs:263-424 | Any list of public operations on either duplexer, reads of every kind and `into_inner` included, is a run in the sense of `Runs.Run` on both halves of the buffers, stopped by the first panic or by moving the device out; the replies hold the very bytes handed out. |
| Lives.PerformThenDrop | src/buffered/buf_duplexer.rs:729-736 | Over a whole life, destructor included: without a panic the destructor makes the calls of a whole flush, and the device ends with everything acknowledged unless that flush fails, as the last of those calls did; it ends so too when moved out; after a panic the destructor makes no call, except after one in the read of a `fill_buf`, when it flushes; the bytes handed out followed by what remains are the input. |
| Lives.LifeConserves | src/buffered/buf_duplexer.rs:729-736 | What a life comes to on every way it can end, from the run up to there and what the destructor does. |
| PublicBufDuplexers.BufDuplexer.Write | src/buffered/buf_duplexer.rs:487-491 | A public write is one step of a block-buffered run. |
| PublicBufDuplexers.BufDuplexer.WriteAll | src/buffered/buf_duplexer.rs:494-496 | A public `write_all` is one step of a block-buffered run. |
| PublicBufDuplexers.BufDuplexer.WriteVectored | src/buffered/buf_duplexer.rs:499-501 | A public vectored write is one step of a block-buffered run. |
| PublicBufDuplexers.BufDuplexer.Flush | src/buffered/buf_duplexer.rs:510-512 | A public flush is one step of a block-buffered run. |
| PublicBufDuplexers.BufDuplexer.Read | src/buffered/buf_duplexer.rs:584-589 | Only when the flush succeeds is the device read, behind it; when it fails the incoming half does not change at all; otherwise a read of the incoming stream. |
| PublicBufDuplexers.BufDuplexer.ReadVectored | src/buffered/buf_duplexer.rs:592-597 | The same for a list of destinations. |
| PublicBufDuplexers.BufDuplexer.ReadUntil | src/buffered/buf_duplexer.rs:665-670 | The same, and appends exactly the incoming stream through the delimiter. |
| PublicBufDuplexers.BufDuplexer.FillBuf | src/buffered/buf_duplexer.rs:655-657 | Shows what is buffered, filled if it was empty, without flushing. |
| PublicBufDuplexers.BufDuplexer.Consume | src/buffered/buf_duplexer.rs:660-662 | Takes bytes off the front of what is buffered, at most all of it. |
| PublicBufDuplexers.BufDuplexer.IntoInner | src/buffered/buf_duplexer.rs:333-337 | Success moves the device out holding the whole stream; an error keeps the device and the stream. |
| Runs.RunConserves | src/buffered/buf_reader_line_writer_shim.rs:69-282 | Over every run and device behaviour: delivered followed by buffered equals the acknowledged bytes in order; the buffer stays within its capacity and keeps the line discipline; every device call ever made was permitted. |
| Runs.RunHandsOut | src/buffered/buf_duplexer.rs:613-699 | Over every run, with any mix of reads and any chunking: the bytes in the replies, in order, followed by what is buffered and what the device has yet to give are the input. |
| Runs.RunReaches | src/buffered/buf_reader_line_writer_shim.rs:254-282 | At any point of any run: after a line-buffered `write_all` that succeeded all completed lines ever acknowledged are delivered; after a flush or a read, all bytes. |
| Runs.RequestBeforeResponse | src/buffered/buf_reader_line_writer.rs:341-424 | Every device read a public read makes follows a flush that succeeded, with no write since and nothing buffered. |
| Runs.PanicEndsRun | src/buffered/buf_duplexer.rs:521-525 | After a panic the device holds a part of what was acknowledged followed by the argument, and the destructor has nothing to write, except after a panic in the read of a `fill_buf`, which leaves the stream as it was. |
| Runs.StepKeeps | src/buffered/buf_reader_line_writer.rs:263-424 | Each public operation that does not panic keeps the line discipline and the capacity, and extends the stream by exactly what its reply acknowledges. |
| Pumps.PumpConserves | src/streams.rs:1421-1450 | At every point of either pump and under every answer, each side has received a prefix of what was read from the other, at most one buffer behind, and all of it when about to read or stopped with success. |
| Pumps.PumpsMirror | src/streams.rs:1417-1488 | `write_first` makes the calls of `read_first` with the endpoints exchanged. |
| Pumps.StateIffChained | src/streams.rs:1421-1450 | The machine makes exactly the calls of which each follows the one before: a write of just what was read to the other side, then a read from the side written to after a short chunk, else from the same side again. |
| Pumps.StoppedIffAnswers | src/streams.rs:1424-1450 | It stops exactly when nothing can follow: with success at the end of the input, and with the very error or panic of its last call otherwise. |
| Pumps.ReadFirst | src/streams.rs:1417-1451 | Every call made on either endpoint, as the devices' own records show them with their windows, data and answers, follows the one before it, the first being a read from the boxed side; the pump answers well when a read finds the end of the input and else as its last call did; on success everything read was delivered and one input is at its end. |
| Pumps.WriteFirst | src/streams.rs:1454-1488 | The same from the socket side. |
| Pumps.Carry | src/streams.rs:1425-1434 | One round of an inner loop: one chunk is read with a whole buffer and written whole, in no other calls; the direction turns exactly when the chunk is short. |
| Pumps.Endpoint.Read | src/streams.rs:1425-1430 | A call on an endpoint goes on the list shared by both and into the record of its device. |
| Pumps.Endpoint.WriteAll | src/streams.rs:1431-1431 | The same for a write. |
| Pumps.ReadChunk | src/streams.rs:1425-1430 | One read of a whole buffer, no other call; an interruption counts as an empty chunk; the pump is over at the end of the input, on an error or in a panic. |
| Pumps.TurnsKeptIff | src/streams.rs:1424-1448 | With any limits on what each read may return, interruptions included: the pump keeps the turns of a conversation, never reading from a side that has nothing to say, if and only if no message length is a multiple of the buffer size and each read returns the chunk due, so that none is interrupted and none is short within a message. |
| Pumps.ShortReadLosesTurn | src/streams.rs:1424-1435 | A message of 500 bytes of which the first read returns 100 loses the turn, though its length is no multiple of the buffer size. |
| Pumps.TurnsKeptDeliver | src/streams.rs:1424-1448 | When turns are kept, each message is delivered whole, in order, to the other side, and the direction turns once per message. |
| PipedWriters.MoveKeeps | src/streams.rs:534-548 | No move of any worker, at any depth, loses, invents or reorders a byte, or breaks the threads' invariant. |
| PipedWriters.MoveWorks | src/streams.rs:534-548 | Every worker move leaves less work by a measure on the whole nest. |
| PipedWriters.FlushGoesOn | src/streams.rs:984-988 | While a flush has not come through, some worker can move: closing the pipe and joining cannot deadlock at any depth. |
| PipedWriters.FlushComesThrough | src/streams.rs:983-988 | Under any schedule the workers stop within a bound fixed at the start of the flush, and only when it has come through. |
| PipedWriters.FlushDelivers | src/streams.rs:975-994 | When an outer flush returns, for any depth, rounds and interleaving, the innermost sink holds exactly the bytes written so far in order, flushed, and every pipe is empty. |
| PipedWriters.FlushReturns | src/streams.rs:983-988 | In every reachable state with an idle owner a flush can be made and returns, by moves of the threads alone and the join. |
| PipedWriters.WriteReturns | src/streams.rs:534-548 | In every such state any bytes can be written. |
| PipedWriters.DropDelivers | src/streams.rs:1343-1356 | Once the outermost writer has been dropped, and with it every writer below as the joins give them back, only the sink is left, with exactly the bytes asked for, flushed. |
| PipedWriters.DropReturns | src/streams.rs:1343-1356 | In every reachable state with an idle owner a piped writer can be dropped, down to the sink. |
| PipedWriters.DropComesThrough | src/streams.rs:1343-1356 | Under any schedule the whole cascade of drops is over within a bound fixed at its start, and nothing stops before it is. |
| PipedWriters.WriteComesThrough | src/streams.rs:534-548 | Under any schedule a write is over within a bound fixed at its start, and stops only when all its bytes are in the pipe. |
| PipedWriters.SomeoneMoves | src/streams.rs:975-994 | In every reachable state an owner that writes or waits can go on, or a worker can. |
| PipedWriters.ExecKeeps | src/streams.rs:534-548 | Over every interleaving the sink, hands and pipes followed by what is not yet pushed are the bytes asked for. |
| PipedReaders.BytesReadExactly | src/streams.rs:341-357 | A reader told of the end has read exactly the bytes, on the inline and the thread path, in every interleaving. |
| PipedReaders.EndIsReached | src/streams.rs:341-357 | From every reachable state a reader that keeps reading can be told of the end. |
| PipedReaders.InlineIffShort | src/streams.rs:344-356 | In every reachable state there is a thread, or has been one, exactly when the bytes are more than the inline path takes. |
| PipedReaders.InlineNeverWaits | src/streams.rs:344-353 | In every interleaving of the inline writes, the rest of the bytes fits the pipe, so the next write never waits. |
| PipedReaders.SomeoneSteps | src/streams.rs:307-357 | In every reachable state of a reader over bytes, one that is being opened, keeps reading or is being dropped never waits for ever. |
| PipedReaders.StepsRunOut | src/streams.rs:307-357 | Every step leaves less to do, so the end of the input or of the drop is reached. |
| PipedReaders.DropPanicsIff | src/streams.rs:1322-1337 | Over every interleaving that ends with the reader dropped, the destructor panicked if and only if the source failed or panicked, otherwise than with a broken pipe. |
| PipedReaders.FailureReachesDrop | src/streams.rs:1326-1336 | A run in which the source fails in its thread, in any way, and the destructor panics unless it was a broken pipe. |
| PipedReaders.DropEnds | src/streams.rs:1322-1337 | From every reachable state an open reader can be dropped, and its destructor returns or panics. |
| PipedReaders.BytesDropNeverPanics | src/streams.rs:1322-1337 | Over bytes no drop panics, however early. |
| StdinLockers.NextInv | src/lockers.rs:82-120 | Each step of a claimant, its thread or an outsider keeps the invariant. |
| StdinLockers.ClaimIsExclusive | src/lockers.rs:82-120 | In every reachable state at most one claimant and one thread exist, the lock is held for a claimant exactly while its thread has it, and a clear flag means no thread and no lock held. |
| StdinLockers.DropNeverSetBack | src/lockers.rs:217-224 | Nobody's step sets a drop back, each step of the client or its thread brings it on, and when it is over the flag is clear. |
| StdinLockers.DropStepsBounded | src/lockers.rs:217-224 | Under any schedule a client that is giving up its claim, and its thread, take no more steps than were left at the start. |
| StdinLockers.DropFinishes | src/lockers.rs:217-224 | A drop finishes in at most five steps once an outside holder lets go, even when the unpark comes before the park. |
| StdinLockers.ReachableDropFinishes | src/lockers.rs:217-224 | So it does from every reachable state, leaving the claim and the lock free. |
| StdinLockers.LostIff | src/lockers.rs:96-104 | The flag is lost for good exactly when some spawn failed. |
| StdinLockers.ClaimableIff | src/lockers.rs:82-119 | In an idle system a claim succeeds if and only if no spawn ever failed. |
| StdinLockers.ClaimIsAnswered | src/lockers.rs:82-119 | In every reachable state a claim is answered: refused while another client has the claim or once a spawn has failed, granted otherwise. |
| StdinLockers.ClaimTakesHold | src/lockers.rs:82-112 | Where the claim and the lock are free, a claim can be made and its thread gets the lock. |
| StdinLockers.HoldIsGivenUp | src/lockers.rs:217-224 | A held claim can be given up, which leaves the claim and the lock free and changes nothing else. |
| StdinLockers.FailedSpawnIsNotClaimable | src/lockers.rs:96-104 | A run after which the only client is idle and its claim refused. |

## Left out

- `src/async_std.rs` and `src/tokio.rs`: not compiled by the crate, and mostly unimplemented.
- File descriptors, handles, sockets, the Windows and WASI variants, terminal and layered I/O,
  `Debug`, constructors over the operating system: no state of their own.
- `read_line` and `write_fmt`, `write_all_vectored`: standard library code over `read_until`,
  `write_all` and `write_vectored`.
- The wrapper that `into_inner` returns with its error: in the model the writer is kept, and the run
  goes on with it.
- Devices that answer `Interrupted` for ever: the loops of the original then do not end.
- Interactive input that grows, or ends more than once: the input is one byte string.
- Integer width: lengths are unbounded, so the sums of lengths in the vectored operations do not
  overflow, as they cannot for slices that fit in memory without aliasing.
- Reuse of a writer after a caught panic: a panic ends the object's life.
- BufDuplexers.BufDuplexerBackend.Read: the device fills a list of bytes that is then copied,
  not the caller's memory itself; what a device leaves behind in the destination of a failed
  read is not modelled. The same holds for `ReadVectored`.
- PipedWriters.DropDelivers: the outermost writer is a piped one; dropping the sink itself is not
  modelled.
- LineWriters.BufReaderLineWriter.FillBuf: the public `fill_buf` does not flush first, so it is
  not part of the claim about requests and responses.
- Runs.PanicEndsRun: after a panic in the device read of a public `fill_buf` the destructor still
  sends what is buffered, as in the original; for that case the flush by the destructor is stated.
- Workers of piped writers that fail or panic: the joins then panic in the original; the model
  takes them to succeed. (Threads of piped readers that fail or panic are modelled.) The same goes for pipes and threads that cannot be created in `flush`.
- `StreamReader::map_err` followed by a drop, which takes the thread a second time.
- Flushing a `StreamDuplexer` over a socketed thread: it flushes the local handle only.
- `StdoutLocker` and `StderrLocker`: the second claims one flag and clears another.
- The polling in `socketed_thread` that picks a pump: timing only.
- The pipe and claim protocols are modelled as steps of state machines rather than as methods,
  because their point is the interleaving; moving the pipe and the join handle out of their
  option is part of a step.
