/** The public block-buffered duplexer: the buffers, and reads that flush first. */
module PublicBufDuplexers {
  import opened Bytes
  import opened Devices
  import opened Outgoing
  import opened Incoming
  import opened Runs
  import opened BufDuplexers

  class BufDuplexer {
    const inner: BufDuplexerBackend

    constructor WithCapacities(readerCapacity: nat, writerCapacity: nat, device: Device)
      requires device.Valid() && Disciplined(device.trace)
      ensures Valid() && fresh(inner) && fresh(inner.readerBuf) && inner.inner == device
      ensures inner.Output() == Out(device.received, [], writerCapacity, device.trace, false)
      ensures inner.Input() == In([], device.input, readerCapacity)
    {
      inner := new BufDuplexerBackend.WithCapacities(readerCapacity, writerCapacity, device);
    }

    ghost predicate Valid()
      reads inner, inner.inner
    {
      inner.Valid()
    }

    method Write(buf: seq<byte>) returns (r: Outcome<nat>)
      requires Valid()
      modifies inner`writerBuf, inner`panicked, inner.inner`trace, inner.inner`received, inner.inner`patience
      ensures inner.Intact()
      ensures OutStep(WriteOp(buf), BlockBuffered, old(inner.Output()), Count(r), inner.Output())
    {
      r := inner.Write(buf);
    }

    method WriteAll(buf: seq<byte>) returns (r: Outcome<()>)
      requires Valid()
      modifies inner`writerBuf, inner`panicked, inner.inner`trace, inner.inner`received, inner.inner`patience
      ensures inner.Intact()
      ensures OutStep(WriteAllOp(buf), BlockBuffered, old(inner.Output()), Done(r), inner.Output())
    {
      r := inner.WriteAll(buf);
    }

    method WriteVectored(bufs: seq<seq<byte>>) returns (r: Outcome<nat>)
      requires Valid()
      modifies inner`writerBuf, inner`panicked, inner.inner`trace, inner.inner`received, inner.inner`patience
      ensures inner.Intact()
      ensures OutStep(WriteVectoredOp(bufs), BlockBuffered, old(inner.Output()), Count(r), inner.Output())
    {
      r := inner.WriteVectored(bufs);
    }

    method Flush() returns (r: Outcome<()>)
      requires Valid()
      modifies inner`writerBuf, inner`panicked, inner.inner`trace, inner.inner`received, inner.inner`patience
      ensures inner.Intact() && FlushedThrough(old(inner.Output()), r, inner.Output())
    {
      r := inner.Flush();
    }

    /** Flushes, then reads into `buf` the bytes `got`. The flush ends as `f`, and `mid` is the
        outgoing half after it; when it fails the reading side is left alone. */
    method Read(buf: array<byte>)
      returns (r: Outcome<nat>, ghost got: seq<byte>, ghost f: Outcome<()>, ghost mid: Out)
      requires Valid() && buf != inner.readerBuf
      modifies inner`writerBuf, inner`panicked, inner`pos, inner`cap, inner.readerBuf, buf
      modifies inner.inner`trace, inner.inner`received, inner.inner`patience, inner.inner`input
      ensures inner.Intact() && Behind(old(inner.Output()), f, mid, Unit(r), inner.Output())
      ensures !f.Ok? ==> inner.Input() == old(inner.Input())
      ensures Took(old(inner.Input()), buf.Length, got, Unit(r), inner.Input())
      ensures f.Ok? ==> ReadWay(old(inner.Input()), buf.Length, mid.trace, got, Unit(r), inner.inner.trace)
      ensures Overwritten(got, old(buf[..]), |got|, buf[..]) && (r.Ok? ==> r.value == |got|)
    {
      var flushed := inner.Flush();
      f, mid := flushed, inner.Output();
      if flushed.Ok? {
        r, got := inner.Read(buf, true);
      } else {
        r, got := flushed.PropagateFailure(), [];
        TookNothing(inner.Input(), buf.Length, f);
      }
    }

    method ReadVectored(bufs: seq<array<byte>>)
      returns (r: Outcome<nat>, ghost got: seq<byte>, ghost f: Outcome<()>, ghost mid: Out)
      requires Valid() && inner.readerBuf !in bufs && Distinct(bufs)
      modifies inner`writerBuf, inner`panicked, inner`pos, inner`cap, inner.readerBuf, bufs
      modifies inner.inner`trace, inner.inner`received, inner.inner`patience, inner.inner`input
      ensures inner.Intact() && Behind(old(inner.Output()), f, mid, Unit(r), inner.Output())
      ensures !f.Ok? ==> inner.Input() == old(inner.Input())
      ensures Took(old(inner.Input()), TotalLen(bufs), got, Unit(r), inner.Input())
      ensures f.Ok? ==> ReadWay(old(inner.Input()), TotalLen(bufs), mid.trace, got, Unit(r), inner.inner.trace)
      ensures Overwritten(got, old(Gather(bufs)), |got|, Gather(bufs)) && (r.Ok? ==> r.value == |got|)
    {
      ghost var input, there := inner.Input(), Gather(bufs);
      var flushed := inner.Flush();
      f, mid := flushed, inner.Output();
      assert inner.Input() == input && Gather(bufs) == there;
      if flushed.Ok? {
        r, got := inner.ReadVectored(bufs, true);
      } else {
        r, got := flushed.PropagateFailure(), [];
        TookNothing(input, TotalLen(bufs), f);
      }
    }

    /** Flushes, then appends the input through `delim`, `got`, to `buf`. */
    method ReadUntil(delim: byte, buf: seq<byte>)
      returns (r: Outcome<nat>, out: seq<byte>, ghost got: seq<byte>, ghost f: Outcome<()>, ghost mid: Out)
      requires Valid()
      modifies inner`writerBuf, inner`panicked, inner`pos, inner`cap, inner.readerBuf
      modifies inner.inner`trace, inner.inner`received, inner.inner`patience, inner.inner`input
      ensures inner.Intact() && Behind(old(inner.Output()), f, mid, Unit(r), inner.Output())
      ensures !f.Ok? ==> inner.Input() == old(inner.Input())
      ensures TookThrough(old(inner.Input()), delim, got, Unit(r), inner.Input())
      ensures f.Ok? ==> UntilWay(old(inner.Input()), delim, mid.trace, got, Unit(r), inner.inner.trace)
      ensures out == buf + got && (r.Ok? ==> r.value == |got|)
    {
      var flushed := inner.Flush();
      f, mid := flushed, inner.Output();
      if flushed.Ok? {
        r, out, got := inner.ReadUntil(delim, buf, true);
      } else {
        r, out, got := flushed.PropagateFailure(), buf, [];
        TookNothing(inner.Input(), 0, f);
      }
    }

    /** Fills the reader buffer without flushing. */
    method FillBuf() returns (r: Outcome<seq<byte>>)
      requires Valid()
      modifies inner`pos, inner`cap, inner.readerBuf
      modifies inner.inner`trace, inner.inner`received, inner.inner`patience, inner.inner`input
      ensures Valid() && ReadAs(old(inner.Output()), Unit(r), inner.Output(), false)
      ensures Filled(old(inner.Input()), r, inner.Input())
      ensures FillWay(old(inner.Input()), old(inner.inner.trace), r, inner.inner.trace)
    {
      r := inner.FillBuf(false);
    }

    /** Skips buffered bytes; `given` are those skipped. */
    method Consume(amount: nat) returns (ghost given: seq<byte>)
      requires Valid()
      modifies inner`pos
      ensures Valid() && inner.Output() == old(inner.Output())
      ensures Consumed(old(inner.Input()), amount, given, inner.Input())
    {
      given := inner.Consume(amount);
    }

    /** Sends what is buffered and gives the device back; on an error the buffers keep it. */
    method IntoInner() returns (r: Outcome<Device>)
      requires Valid()
      modifies inner`writerBuf, inner`panicked, inner`detached
      modifies inner.inner`trace, inner.inner`received, inner.inner`patience
      ensures inner.Sound() && inner.detached == r.Ok? && (r.Ok? ==> r.value == inner.inner)
      ensures Emptied(old(inner.Output()), Unit(r), inner.Output())
      ensures Flushed(old(inner.Output()), Unit(r), inner.Output())
    {
      r := inner.IntoInner();
    }
  }
}
