/** The line-buffering shim put around the buffers for each write. */
module LineShims {
  import opened Bytes
  import opened Devices
  import opened Outgoing
  import opened LineRules
  import opened BufDuplexers

  class BufReaderLineWriterShim {
    const buffer: BufDuplexerBackend

    constructor (buffer: BufDuplexerBackend)
      ensures this.buffer == buffer
    {
      this.buffer := buffer;
    }

    /** Flushes the buffer if its last byte is a newline. */
    method FlushIfCompletedLine() returns (r: Outcome<()>)
      requires buffer.Valid() && LineDiscipline(buffer.writerBuf)
      modifies buffer`writerBuf, buffer`panicked, buffer.inner`trace, buffer.inner`received, buffer.inner`patience
      ensures buffer.Intact() && buffer.inner.patience <= old(buffer.inner.patience)
      ensures Cleared(old(buffer.Output()), r, buffer.Output())
      ensures if NEWLINE in old(buffer.writerBuf) then r.Ok? ==> buffer.writerBuf == []
              else r.Ok? && buffer.Output() == old(buffer.Output())
    {
      r := Ok(());
      RanNothing(buffer.inner.trace, true);
      if |buffer.writerBuf| > 0 && buffer.writerBuf[|buffer.writerBuf| - 1] == NEWLINE {
        r := Clear();
      }
    }

    /** Flushes the buffer. */
    method Clear() returns (r: Outcome<()>)
      requires buffer.Valid() && LineDiscipline(buffer.writerBuf)
      modifies buffer`writerBuf, buffer`panicked, buffer.inner`trace, buffer.inner`received, buffer.inner`patience
      ensures buffer.Intact() && buffer.inner.patience <= old(buffer.inner.patience)
      ensures Cleared(old(buffer.Output()), r, buffer.Output())
      ensures r.Ok? ==> buffer.writerBuf == []
    {
      ghost var s := buffer.Output();
      r := buffer.FlushBuf();
      FlushClears(s, r, buffer.Output());
    }

    /** Writes past the buffers, which hold nothing to write. */
    method WriteDirect(data: seq<byte>) returns (w: Outcome<nat>, ghost taken: nat)
      requires buffer.Valid() && buffer.writerBuf == []
      modifies buffer`writerBuf, buffer`panicked, buffer.inner`trace, buffer.inner`received, buffer.inner`patience
      ensures buffer.Intact() && buffer.inner.patience <= old(buffer.inner.patience)
      ensures WroteFresh(old(buffer.Output()), data, w, taken, false, buffer.Output()) && (w.Err? ==> taken == 0)
    {
      ghost var s := buffer.Output();
      w, taken := buffer.inner.Write(data, Fresh, buffer.panicked, buffer.writerBuf);
      WroteFreshIntact(s, data, w, taken, false, buffer.Output());
    }

    method WriteAllDirect(data: seq<byte>) returns (r: Outcome<()>, ghost taken: nat)
      requires buffer.Valid() && buffer.writerBuf == []
      modifies buffer`writerBuf, buffer`panicked, buffer.inner`trace, buffer.inner`received, buffer.inner`patience
      ensures buffer.Intact() && buffer.inner.patience <= old(buffer.inner.patience)
      ensures WroteFresh(old(buffer.Output()), data, Counted(r, |data|), taken, false, buffer.Output())
    {
      ghost var s := buffer.Output();
      r, taken := buffer.inner.WriteAll(data, Fresh, buffer.panicked, buffer.writerBuf);
      WroteFreshIntact(s, data, Counted(r, |data|), taken, false, buffer.Output());
    }

    method WriteVectoredDirect(bufs: seq<seq<byte>>) returns (w: Outcome<nat>, ghost taken: nat)
      requires buffer.Valid() && buffer.writerBuf == []
      modifies buffer`writerBuf, buffer`panicked, buffer.inner`trace, buffer.inner`received, buffer.inner`patience
      ensures buffer.Intact() && buffer.inner.patience <= old(buffer.inner.patience)
      ensures WroteFresh(old(buffer.Output()), Concat(bufs), w, taken, false, buffer.Output())
      ensures w.Err? ==> taken == 0
    {
      ghost var s := buffer.Output();
      w, taken := buffer.inner.WriteVectored(bufs, Fresh, buffer.panicked, buffer.writerBuf);
      WroteFreshIntact(s, Concat(bufs), w, taken, false, buffer.Output());
    }

    method Write(buf: seq<byte>) returns (r: Outcome<nat>)
      requires buffer.Valid() && LineDiscipline(buffer.writerBuf)
      modifies buffer`writerBuf, buffer`panicked, buffer.inner`trace, buffer.inner`received, buffer.inner`patience
      ensures buffer.Intact() && buffer.inner.patience <= old(buffer.inner.patience)
      ensures LineWrote(old(buffer.Output()), buf, r, buffer.Output())
    {
      match LastIndex(NEWLINE, buf) {
        case None => r := WritePartial(buf);
        case Some(newlineIdx) => r := WriteLines(buf, newlineIdx + 1);
      }
    }

    /** Writes bytes that do not complete a line. */
    method WritePartial(buf: seq<byte>) returns (r: Outcome<nat>)
      requires NEWLINE !in buf
      requires buffer.Valid() && LineDiscipline(buffer.writerBuf)
      modifies buffer`writerBuf, buffer`panicked, buffer.inner`trace, buffer.inner`received, buffer.inner`patience
      ensures buffer.Intact() && buffer.inner.patience <= old(buffer.inner.patience)
      ensures LineWrote(old(buffer.Output()), buf, r, buffer.Output())
    {
      ghost var s := buffer.Output();
      var f := FlushIfCompletedLine();
      ghost var s1 := buffer.Output();
      if f.IsFailure() {
        ClearFailsWrite(s, buf, f, s1);
        return f.PropagateFailure();
      }
      r := buffer.Write(buf);
      PlainWriteIsLineWrite(s, s1, buf, r, buffer.Output());
    }

    /** Writes bytes whose complete lines are the first `newlineIdx`. */
    method WriteLines(buf: seq<byte>, newlineIdx: nat) returns (r: Outcome<nat>)
      requires NEWLINE in buf && newlineIdx <= |buf| && buf[..newlineIdx] == CompletedLines(buf)
      requires buffer.Valid() && LineDiscipline(buffer.writerBuf)
      modifies buffer`writerBuf, buffer`panicked, buffer.inner`trace, buffer.inner`received, buffer.inner`patience
      ensures buffer.Intact() && buffer.inner.patience <= old(buffer.inner.patience)
      ensures LineWrote(old(buffer.Output()), buf, r, buffer.Output())
    {
      ghost var s := buffer.Output();
      var f := Clear();
      ghost var s1 := buffer.Output();
      if f.IsFailure() {
        ClearFailsWrite(s, buf, f, s1);
        return f.PropagateFailure();
      }
      var lines := buf[..newlineIdx];
      var w, taken := WriteDirect(lines);
      ghost var s2 := buffer.Output();
      if !w.Ok? || w.value == 0 {
        LinesRefused(s, s1, buf, w, taken, s2);
        return w;
      }
      var flushed := w.value;
      var tail := Tail(buf, flushed, newlineIdx, buffer.writerCapacity);
      var buffered := buffer.WriteToBuf(tail);
      assert buffer.writerBuf == tail[..buffered];
      r := Ok(flushed + buffered);
      LinesThenTail(s, s1, buf, w, taken, s2, buffer.Output(), buffered, r);
    }

    /** Buffers slices one by one until one does not fit at all. */
    method BufferSlices(tail: seq<seq<byte>>) returns (buffered: nat)
      requires buffer.Valid()
      modifies buffer`writerBuf
      ensures buffer.Valid()
      ensures buffered == Min(buffer.writerCapacity - |old(buffer.writerBuf)|, |Concat(tail)|)
      ensures buffer.writerBuf == old(buffer.writerBuf) + Concat(tail)[..buffered]
    {
      buffered := 0;
      ghost var room, was := buffer.writerCapacity - |buffer.writerBuf|, buffer.writerBuf;
      for i := 0 to |tail|
        invariant buffer.Valid() && buffered == Min(room, |Concat(tail[..i])|)
        invariant buffer.writerBuf == was + Concat(tail[..i])[..buffered]
      {
        assert tail[..i + 1] == tail[..i] + [tail[i]];
        ConcatSnoc(tail[..i], tail[i]);
        if |tail[i]| > 0 {
          var n := buffer.WriteToBuf(tail[i]);
          SliceBuffered(was, Concat(tail[..i]), tail[i], room, buffered, n);
          if n == 0 {
            assert tail == tail[..i + 1] + tail[i + 1..];
            ConcatAppend(tail[..i + 1], tail[i + 1..]);
            return;
          }
          buffered := buffered + n;
        }
      }
      assert tail[..|tail|] == tail;
    }

    method WriteVectored(bufs: seq<seq<byte>>) returns (r: Outcome<nat>)
      requires buffer.Valid() && LineDiscipline(buffer.writerBuf)
      modifies buffer`writerBuf, buffer`panicked, buffer.inner`trace, buffer.inner`received, buffer.inner`patience
      ensures buffer.Intact() && buffer.inner.patience <= old(buffer.inner.patience)
      ensures LineWroteVectored(old(buffer.Output()), bufs, buffer.inner.vectored, r, buffer.Output())
    {
      if !buffer.inner.vectored {
        r := WriteFirstSlice(bufs);
        return;
      }
      if LinesEnd(bufs) == 0 {
        assert bufs[0..] == bufs;
        r := WriteVectoredPartial(bufs);
        return;
      }
      ghost var s := buffer.Output();
      var f := Clear();
      if f.IsFailure() {
        ClearFailsVectored(s, bufs, f, buffer.Output());
        return f.PropagateFailure();
      }
      r := WriteSlices(s, bufs);
    }

    /** Writes slices that do not complete a line. */
    method WriteVectoredPartial(bufs: seq<seq<byte>>) returns (r: Outcome<nat>)
      requires LinesEnd(bufs) == 0 && NEWLINE !in Concat(bufs)
      requires buffer.Valid() && LineDiscipline(buffer.writerBuf)
      modifies buffer`writerBuf, buffer`panicked, buffer.inner`trace, buffer.inner`received, buffer.inner`patience
      ensures buffer.Intact() && buffer.inner.patience <= old(buffer.inner.patience)
      ensures LineWroteVectored(old(buffer.Output()), bufs, true, r, buffer.Output())
    {
      ghost var s := buffer.Output();
      var f := FlushIfCompletedLine();
      ghost var s1 := buffer.Output();
      if f.IsFailure() {
        ClearFailsVectored(s, bufs, f, s1);
        return f.PropagateFailure();
      }
      r := buffer.WriteVectored(bufs);
      PlainWriteIsVectored(s, s1, bufs, r, buffer.Output());
    }

    /** Writes the first non-empty slice. */
    method WriteFirstSlice(bufs: seq<seq<byte>>) returns (r: Outcome<nat>)
      requires buffer.Valid() && LineDiscipline(buffer.writerBuf)
      modifies buffer`writerBuf, buffer`panicked, buffer.inner`trace, buffer.inner`received, buffer.inner`patience
      ensures buffer.Intact() && buffer.inner.patience <= old(buffer.inner.patience)
      ensures LineWroteVectored(old(buffer.Output()), bufs, false, r, buffer.Output())
    {
      var i := 0;
      while i < |bufs| && |bufs[i]| == 0
        invariant i <= |bufs| && forall j :: 0 <= j < i ==> bufs[j] == []
      {
        i := i + 1;
      }
      assert i == FirstFull(bufs);
      r := Ok(0);
      if i < |bufs| {
        r := Write(bufs[i]);
      }
      FirstSliceWrite(old(buffer.Output()), bufs, r, buffer.Output());
    }

    /** With nothing buffered: offers the slices through the last one with a newline, and
        buffers what fits of the rest if they are taken whole. */
    method WriteSlices(ghost s: Out, bufs: seq<seq<byte>>) returns (r: Outcome<nat>)
      requires buffer.Valid() && Cleared(s, Ok(()), buffer.Output())
      requires LinesEnd(bufs) > 0 && buffer.writerBuf == []
      modifies buffer`writerBuf, buffer`panicked, buffer.inner`trace, buffer.inner`received, buffer.inner`patience
      ensures buffer.Intact() && buffer.inner.patience <= old(buffer.inner.patience)
      ensures LineWroteVectored(s, bufs, true, r, buffer.Output())
    {
      ghost var s1 := buffer.Output();
      var n := LinesEnd(bufs);
      ghost var w, taken, s2, kept;
      r, w, taken, s2, kept := OfferSlices(bufs[..n], bufs[n..]);
      SlicesWritten(s, s1, bufs, Concat(bufs[..n]), Concat(bufs[n..]), w, taken, s2, kept, r, buffer.Output());
    }

    /** Offers `lines` in one call and, if they are taken whole, buffers what fits of `tail`.
        `w`, `taken` and `s2` are the answer to the call and the outgoing half after it; `kept`
        counts the bytes buffered. */
    method OfferSlices(lines: seq<seq<byte>>, tail: seq<seq<byte>>)
      returns (r: Outcome<nat>, ghost w: Outcome<nat>, ghost taken: nat, ghost s2: Out, ghost kept: nat)
      requires buffer.Valid() && buffer.writerBuf == []
      modifies buffer`writerBuf, buffer`panicked, buffer.inner`trace, buffer.inner`received, buffer.inner`patience
      ensures buffer.Intact() && buffer.inner.patience <= old(buffer.inner.patience)
      ensures WroteFresh(old(buffer.Output()), Concat(lines), w, taken, false, s2) && (w.Err? ==> taken == 0)
      ensures SlicesKept(Concat(lines), Concat(tail), w, taken, s2, kept, r, buffer.Output())
    {
      var flushed;
      flushed, taken := WriteVectoredDirect(lines);
      w, s2, kept, r := flushed, buffer.Output(), 0, flushed;
      if !flushed.Ok? || flushed.value == 0 {
        return;
      }
      if flushed.value < SumLengths(lines) {
        return;
      }
      var buffered := BufferSlices(tail);
      assert buffer.writerBuf == Concat(tail)[..buffered];
      kept, r := buffered, Ok(flushed.value + buffered);
    }

    method WriteAll(buf: seq<byte>) returns (r: Outcome<()>)
      requires buffer.Valid() && LineDiscipline(buffer.writerBuf)
      modifies buffer`writerBuf, buffer`panicked, buffer.inner`trace, buffer.inner`received, buffer.inner`patience
      ensures buffer.Intact() && buffer.inner.patience <= old(buffer.inner.patience)
      ensures LineWroteAll(old(buffer.Output()), buf, r, buffer.Output())
    {
      match LastIndex(NEWLINE, buf) {
        case None => r := WriteAllPartial(buf);
        case Some(newlineIdx) =>
          var lines, tail := buf[..newlineIdx + 1], buf[newlineIdx + 1..];
          r := WriteLinesThenRest(buf, lines, tail);
      }
    }

    method WriteAllPartial(buf: seq<byte>) returns (r: Outcome<()>)
      requires NEWLINE !in buf
      requires buffer.Valid() && LineDiscipline(buffer.writerBuf)
      modifies buffer`writerBuf, buffer`panicked, buffer.inner`trace, buffer.inner`received, buffer.inner`patience
      ensures buffer.Intact() && buffer.inner.patience <= old(buffer.inner.patience)
      ensures LineWroteAll(old(buffer.Output()), buf, r, buffer.Output())
    {
      ghost var s := buffer.Output();
      r := FlushIfCompletedLine();
      ghost var s1 := buffer.Output();
      if r.IsFailure() {
        ClearFailsWrite(s, buf, r, s1);
        return;
      }
      r := buffer.WriteAll(buf);
      PlainWriteAllIsLineWrite(s, s1, buf, r, buffer.Output());
    }

    method WriteLinesThenRest(ghost buf: seq<byte>, lines: seq<byte>, tail: seq<byte>) returns (r: Outcome<()>)
      requires NEWLINE in buf && lines == CompletedLines(buf) && tail == buf[|lines|..]
      requires buffer.Valid() && LineDiscipline(buffer.writerBuf)
      modifies buffer`writerBuf, buffer`panicked, buffer.inner`trace, buffer.inner`received, buffer.inner`patience
      ensures buffer.Intact() && buffer.inner.patience <= old(buffer.inner.patience)
      ensures LineWroteAll(old(buffer.Output()), buf, r, buffer.Output())
    {
      ghost var s := buffer.Output();
      assert buf == lines + tail;
      var f := WriteAllLines(lines);
      ghost var s1 := buffer.Output();
      if f.IsFailure() {
        LinesFail(s, buf, lines, tail, f, s1);
        return f;
      }
      r := buffer.WriteAll(tail);
      LinesThenRest(s, f, s1, buf, lines, tail, r, buffer.Output());
    }

    /** Gets complete lines to the device: past an empty buffer, or through it. */
    method WriteAllLines(lines: seq<byte>) returns (r: Outcome<()>)
      requires lines != [] && lines[|lines| - 1] == NEWLINE
      requires buffer.Valid() && LineDiscipline(buffer.writerBuf)
      modifies buffer`writerBuf, buffer`panicked, buffer.inner`trace, buffer.inner`received, buffer.inner`patience
      ensures buffer.Intact() && buffer.inner.patience <= old(buffer.inner.patience)
      ensures LinesOut(old(buffer.Output()), lines, r, buffer.Output())
      ensures LinesWay(old(buffer.Output()), lines, buffer.Output())
    {
      ghost var s := buffer.Output();
      if |buffer.writerBuf| == 0 {
        ghost var taken: nat;
        r, taken := WriteAllDirect(lines);
        DirectLinesOut(s, lines, r, taken, buffer.Output());
      } else {
        r := buffer.WriteAll(lines);
        ghost var s1 := buffer.Output();
        if r.IsFailure() {
          BufferedLinesFail(s, lines, r, s1);
          return;
        }
        BufferedLinesKeepDiscipline(s, lines, s1);
        r := Clear();
        BufferedLinesOut(s, s1, lines, r, buffer.Output());
      }
    }
  }
}
