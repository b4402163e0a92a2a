/** The buffers in front of a device: a bounded writer buffer and a reader buffer. */
module BufDuplexers {
  import opened Bytes
  import opened Devices
  import opened Outgoing
  import opened Incoming

  function TotalLen(bufs: seq<array<byte>>): nat {
    if bufs == [] then 0 else bufs[0].Length + TotalLen(bufs[1..])
  }

  predicate Distinct(bufs: seq<array<byte>>) {
    forall i, j :: 0 <= i < j < |bufs| ==> bufs[i] != bufs[j]
  }

  /** The contents of a list of destination slices, end to end. */
  ghost function Gather(bufs: seq<array<byte>>): (s: seq<byte>)
    reads bufs
    ensures |s| == TotalLen(bufs)
  {
    if bufs == [] then [] else bufs[0][..] + Gather(bufs[1..])
  }

  /** Each destination's contents are where they belong, the first one's first. */
  lemma {:induction false} GatherAt(bufs: seq<array<byte>>, i: nat)
    requires i < |bufs|
    ensures var at := TotalLen(bufs[..i]);
            at + bufs[i].Length <= |Gather(bufs)| && Gather(bufs)[at..at + bufs[i].Length] == bufs[i][..]
  {
    if i == 0 {
      assert bufs[..0] == [];
    } else {
      assert bufs[..i][0] == bufs[0] && bufs[..i][1..] == bufs[1..][..i - 1];
      GatherAt(bufs[1..], i - 1);
      var at := TotalLen(bufs[1..][..i - 1]);
      assert Gather(bufs)[bufs[0].Length + at..bufs[0].Length + at + bufs[i].Length] ==
             Gather(bufs[1..])[at..at + bufs[i].Length];
    }
  }

  /** `after` is `before` with its first `n` bytes, as many as there are, replaced by `src`'s. */
  predicate Overwritten(src: seq<byte>, before: seq<byte>, n: nat, after: seq<byte>) {
    && n == Min(|src|, |before|) && |after| == |before|
    && after == src[..n] + before[n..]
  }

  lemma OverwrittenNothing(before: seq<byte>)
    ensures Overwritten([], before, 0, before)
  {
  }

  method CopyInto(src: seq<byte>, dst: array<byte>)
    requires |src| <= dst.Length
    modifies dst
    ensures Overwritten(src, old(dst[..]), |src|, dst[..])
  {
    for i := 0 to |src|
      invariant dst[..i] == src[..i]
      invariant dst[i..] == old(dst[i..])
    {
      dst[i] := src[i];
    }
    assert dst[..] == dst[..|src|] + dst[|src|..];
  }

  /** Filling a first slice and then the others fills them end to end. */
  lemma ScatterJoins(part: seq<byte>, rest: seq<byte>, head0: seq<byte>, head: seq<byte>, m: nat, tail0: seq<byte>,
                     tail: seq<byte>)
    requires |part| <= |head0| && (rest == [] || |part| == |head0|)
    requires Overwritten(part, head0, |part|, head) && Overwritten(rest, tail0, m, tail)
    ensures Overwritten(part + rest, head0 + tail0, |part| + m, head + tail)
  {
    if rest == [] {
      assert part + rest == part && tail == tail0;
      Associate(part, head0[|part|..], tail0);
      assert (head0 + tail0)[|part|..] == head0[|part|..] + tail0;
    } else {
      JoinedAt(part, rest, m);
      JoinedFrom(head0, tail0, m);
      Associate(part, rest[..m], tail0[m..]);
      AddNothing(part);
    }
  }

  /** Fills the slices in order with as much of `src` as they hold. */
  method Scatter(src: seq<byte>, bufs: seq<array<byte>>) returns (n: nat)
    requires Distinct(bufs)
    modifies bufs
    ensures Overwritten(src, old(Gather(bufs)), n, Gather(bufs))
    decreases |bufs|, 0
  {
    if bufs == [] {
      n := 0;
    } else {
      n := ScatterFirst(src, bufs[0], bufs[1..]);
    }
  }

  method ScatterFirst(src: seq<byte>, first: array<byte>, others: seq<array<byte>>) returns (n: nat)
    requires Distinct(others) && first !in others
    modifies first, others
    ensures Overwritten(src, old(first[..] + Gather(others)), n, first[..] + Gather(others))
    decreases |others|, 1
  {
    ghost var head0, tail0 := first[..], Gather(others);
    var k := Min(|src|, first.Length);
    var part, rest := src[..k], src[k..];
    assert src == part + rest;
    CopyInto(part, first);
    ghost var head := first[..];
    assert Gather(others) == tail0;
    var m := Scatter(rest, others);
    assert first[..] == head;
    ScatterJoins(part, rest, head0, head, m, tail0, Gather(others));
    n := k + m;
  }

  class BufDuplexerBackend {
    /** The device, and whether `IntoInner` has moved it out. */
    const inner: Device
    var detached: bool

    var writerBuf: seq<byte>
    const writerCapacity: nat
    var panicked: bool

    const readerBuf: array<byte>
    var pos: nat
    var cap: nat

    constructor WithCapacities(readerCapacity: nat, writerCapacity: nat, inner: Device)
      requires inner.Valid() && Disciplined(inner.trace)
      ensures Valid() && this.inner == inner && fresh(readerBuf)
      ensures writerBuf == [] && readerBuf.Length == readerCapacity && pos == cap == 0
      ensures this.writerCapacity == writerCapacity
    {
      this.inner, this.detached := inner, false;
      this.writerBuf, this.writerCapacity, this.panicked := [], writerCapacity, false;
      this.readerBuf := new byte[readerCapacity](_ => 0);
      this.pos, this.cap := 0, 0;
    }

    ghost function Output(): Out
      reads this, inner
    {
      Out(inner.received, writerBuf, writerCapacity, inner.trace, panicked)
    }

    /** What even an unwinding panic, or moving the device out, leaves standing. */
    ghost predicate Sound()
      reads this, inner
    {
      inner.Valid() && Output().Intact() && pos <= cap <= readerBuf.Length
    }

    ghost predicate Intact()
      reads this, inner
    {
      !detached && Sound()
    }

    ghost predicate Valid()
      reads this, inner
    {
      Intact() && !panicked
    }

    ghost function Input(): In
      requires Sound()
      reads this, inner, readerBuf
    {
      In(readerBuf[pos..cap], inner.input, readerBuf.Length)
    }

    /** A device write under the panic flag, which stays set if the device panics. */
    method WriteArmed(data: seq<byte>, ghost origin: Origin) returns (w: Outcome<nat>, ghost taken: nat)
      requires Valid()
      requires if origin.Fresh? then writerBuf == [] else IsSuffix(data, writerBuf)
      modifies `panicked, inner`trace, inner`received, inner`patience
      ensures Intact() && panicked == w.Panicked?
      ensures taken <= |data| && (w.Ok? ==> taken == w.value) && (w.Err? ==> taken == 0)
      ensures inner.trace == Then(old(inner.trace), WriteEvent(data, taken, w, origin, true, writerBuf))
      ensures inner.received == old(inner.received) + data[..taken]
      ensures inner.patience <= old(inner.patience)
      ensures w == Err(Interrupted) ==> inner.patience < old(inner.patience)
    {
      ghost var t := inner.trace;
      panicked := true;
      w, taken := inner.Write(data, origin, panicked, writerBuf);
      if !w.Panicked? {
        panicked := false;
      }
      DisciplineGrows(t, inner.trace.latest);
    }

    method WriteAllArmed(data: seq<byte>) returns (r: Outcome<()>, ghost taken: nat)
      requires Valid() && writerBuf == []
      modifies `panicked, inner`trace, inner`received, inner`patience
      ensures Intact() && inner.patience <= old(inner.patience)
      ensures WroteFresh(old(Output()), data, Counted(r, |data|), taken, true, Output())
    {
      ghost var t := inner.trace;
      panicked := true;
      r, taken := inner.WriteAll(data, Fresh, panicked, writerBuf);
      if !r.Panicked? {
        panicked := false;
      }
      DisciplineGrows(t, inner.trace.latest);
    }

    method WriteVectoredArmed(bufs: seq<seq<byte>>) returns (w: Outcome<nat>, ghost taken: nat)
      requires Valid() && writerBuf == []
      modifies `panicked, inner`trace, inner`received, inner`patience
      ensures Intact() && inner.patience <= old(inner.patience)
      ensures WroteFresh(old(Output()), Concat(bufs), w, taken, true, Output()) && (w.Err? ==> taken == 0)
    {
      ghost var t := inner.trace;
      panicked := true;
      w, taken := inner.WriteVectored(bufs, Fresh, panicked, writerBuf);
      if !w.Panicked? {
        panicked := false;
      }
      DisciplineGrows(t, inner.trace.latest);
    }

    /** Offers the buffer to the device until it is all sent or a call fails. */
    method SendRetained() returns (r: Outcome<()>, written: nat)
      requires Valid()
      modifies `panicked, inner`trace, inner`received, inner`patience
      ensures Intact() && panicked == r.Panicked? && inner.patience <= old(inner.patience)
      ensures Flushing(writerBuf, old(inner.trace), inner.trace, r, written)
      ensures r.Ok? ==> written == |writerBuf|
    {
      written := 0;
      r := Ok(());
      while r.Ok? && written < |writerBuf|
        invariant Intact() && panicked == r.Panicked?
        invariant inner.patience <= old(inner.patience)
        invariant Flushing(writerBuf, old(inner.trace), inner.trace, r, written)
        decreases r.Ok?, inner.patience, |writerBuf| - written
      {
        ghost var before, done := inner.trace, written;
        var w, took := WriteArmed(writerBuf[written..], Retained);
        match w {
          case Ok(n) =>
            r := if n == 0 then Err(WriteZero) else r;
            written := written + n;
          case Err(kind) =>
            r := if kind == Interrupted then r else Err(kind);
          case Panicked =>
            r := Panicked;
        }
        FlushingStep(writerBuf, old(inner.trace), before, done, took, w, r, inner.trace, written);
      }
    }

    /** Sends what is buffered; what was sent is dropped from the front of the buffer on every
        way out, by the guard's destructor. */
    method FlushBuf() returns (r: Outcome<()>)
      requires Valid()
      modifies `writerBuf, `panicked, inner`trace, inner`received, inner`patience
      ensures Intact() && inner.patience <= old(inner.patience)
      ensures Flushed(old(Output()), r, Output())
      ensures Emptied(old(Output()), r, Output())
    {
      ghost var s := Output();
      var written: nat;
      r, written := SendRetained();
      if written > 0 {
        writerBuf := writerBuf[written..];
      }
      FlushedKeepsStream(s, r, Output());
    }

    /** Buffers as much of `buf` as fits. */
    method WriteToBuf(buf: seq<byte>) returns (amount: nat)
      requires Valid()
      modifies `writerBuf
      ensures Valid() && amount == Min(writerCapacity - |old(writerBuf)|, |buf|)
      ensures writerBuf == old(writerBuf) + buf[..amount]
    {
      var available := writerCapacity - |writerBuf|;
      amount := Min(available, |buf|);
      writerBuf := writerBuf + buf[..amount];
    }

    /** Flushes if `len` more bytes would not fit behind what is buffered. */
    method MakeRoom(len: nat) returns (r: Outcome<()>)
      requires Valid()
      modifies `writerBuf, `panicked, inner`trace, inner`received, inner`patience
      ensures Intact() && inner.patience <= old(inner.patience)
      ensures RoomMade(old(Output()), len, r, Output())
    {
      r := Ok(());
      if |writerBuf| + len > writerCapacity {
        r := FlushBuf();
      }
    }

    method Write(buf: seq<byte>) returns (r: Outcome<nat>)
      requires Valid()
      modifies `writerBuf, `panicked, inner`trace, inner`received, inner`patience
      ensures Intact() && inner.patience <= old(inner.patience)
      ensures Acked(old(Output()), buf, r, Output())
      ensures Placed(old(Output()), buf, r, Output())
    {
      ghost var s := Output();
      var f := MakeRoom(|buf|);
      ghost var s1 := Output();
      if f.IsFailure() {
        NoRoomMade(s, buf, f, s1);
        return f.PropagateFailure();
      }
      if |buf| >= writerCapacity {
        ghost var taken: nat;
        r, taken := WriteArmed(buf, Fresh);
        DirectWriteIsPlaced(s, s1, buf, r, taken, Output());
      } else {
        writerBuf := writerBuf + buf;
        r := Ok(|buf|);
        BufferingIsPlaced(s, s1, buf, r, Output());
      }
    }

    method WriteAll(buf: seq<byte>) returns (r: Outcome<()>)
      requires Valid()
      modifies `writerBuf, `panicked, inner`trace, inner`received, inner`patience
      ensures Intact() && inner.patience <= old(inner.patience)
      ensures AckedAll(old(Output()), buf, r, Output())
      ensures PlacedAll(old(Output()), buf, r, Output())
    {
      ghost var s := Output();
      r := MakeRoom(|buf|);
      ghost var s1 := Output();
      if r.IsFailure() {
        NoRoomMade(s, buf, r, s1);
        return;
      }
      if |buf| >= writerCapacity {
        ghost var taken: nat;
        r, taken := WriteAllArmed(buf);
        DirectWriteAllIsPlaced(s, s1, buf, r, taken, Output());
      } else {
        writerBuf := writerBuf + buf;
        r := Ok(());
        BufferingIsPlaced(s, s1, buf, Ok(|buf|), Output());
      }
    }

    method WriteVectored(bufs: seq<seq<byte>>) returns (r: Outcome<nat>)
      requires Valid()
      modifies `writerBuf, `panicked, inner`trace, inner`received, inner`patience
      ensures Intact() && inner.patience <= old(inner.patience)
      ensures Acked(old(Output()), Concat(bufs), r, Output())
      ensures Placed(old(Output()), Concat(bufs), r, Output())
    {
      ghost var s := Output();
      var totalLen := SumLengths(bufs);
      var f := MakeRoom(totalLen);
      ghost var s1 := Output();
      if f.IsFailure() {
        NoRoomMade(s, Concat(bufs), f, s1);
        return f.PropagateFailure();
      }
      if totalLen >= writerCapacity {
        ghost var taken: nat;
        r, taken := WriteVectoredArmed(bufs);
        DirectWriteIsPlaced(s, s1, Concat(bufs), r, taken, Output());
      } else {
        ExtendWith(bufs);
        r := Ok(totalLen);
        BufferingIsPlaced(s, s1, Concat(bufs), r, Output());
      }
    }

    /** Appends the slices to the writer buffer one by one. */
    method ExtendWith(bufs: seq<seq<byte>>)
      modifies `writerBuf
      ensures writerBuf == old(writerBuf) + Concat(bufs)
    {
      for i := 0 to |bufs|
        invariant writerBuf == old(writerBuf) + Concat(bufs[..i])
      {
        ConcatSnoc(bufs[..i], bufs[i]);
        assert bufs[..i + 1] == bufs[..i] + [bufs[i]];
        writerBuf := writerBuf + bufs[i];
      }
      assert bufs[..|bufs|] == bufs;
    }

    method Flush() returns (r: Outcome<()>)
      requires Valid()
      modifies `writerBuf, `panicked, inner`trace, inner`received, inner`patience
      ensures Intact() && inner.patience <= old(inner.patience)
      ensures FlushedThrough(old(Output()), r, Output())
    {
      ghost var s := Output();
      r := FlushBuf();
      ghost var s1 := Output();
      if r.Ok? {
        r := inner.Flush();
        DeviceFlushed(s, s1, r, Output());
      } else {
        NotFlushed(s, r, s1);
      }
    }

    /** A device read. */
    method ReadDevice(room: nat, ghost gated: bool) returns (r: Outcome<seq<byte>>)
      requires Valid()
      requires gated ==> writerBuf == [] && Quiet(inner.trace)
      modifies inner`trace, inner`received, inner`patience, inner`input
      ensures Valid() && ReadAs(old(Output()), Unit(r), Output(), gated)
      ensures inner.patience <= old(inner.patience)
      ensures r == Err(Interrupted) ==> inner.patience < old(inner.patience)
      ensures inner.trace == Then(old(inner.trace), ReadEvent(r, room, gated, writerBuf))
      ensures |Handed(r)| <= room && old(inner.input) == Handed(r) + inner.input
      ensures r.Ok? && r.value == [] ==> room == 0 || inner.input == []
    {
      ghost var t := inner.trace;
      r := inner.Read(room, gated, writerBuf);
      DisciplineGrows(t, inner.trace.latest);
      RanNothing(t, false);
      RanOn(t, t, inner.trace.latest, Unit(r), false);
    }

    /** Fills the reader buffer from the device, when it is used up. */
    method Refill(ghost gated: bool) returns (r: Outcome<()>)
      requires Valid() && pos >= cap
      requires gated ==> writerBuf == [] && Quiet(inner.trace)
      modifies `pos, `cap, readerBuf, inner`trace, inner`received, inner`patience, inner`input
      ensures Valid() && ReadAs(old(Output()), r, Output(), gated) && inner.patience <= old(inner.patience)
      ensures Called(old(inner.trace), readerBuf.Length, if r.Ok? then Input().buffered else [], r, inner.trace)
      ensures if r.Ok? then Filled(old(Input()), Ok(Input().buffered), Input()) else Input() == old(Input())
      ensures r.Err? && r.kind.Interrupted? ==> inner.patience < old(inner.patience)
    {
      ghost var s := Input();
      var got := ReadDevice(readerBuf.Length, gated);
      r := Unit(got);
      if got.Ok? {
        CopyInto(got.value, readerBuf);
        cap := |got.value|;
        pos := 0;
        Refills(s, got.value, Input());
      }
    }

    /** Makes sure that there are buffered bytes, unless the input has ended; returns them. */
    method FillBuf(ghost gated: bool) returns (r: Outcome<seq<byte>>)
      requires Valid()
      requires gated ==> writerBuf == [] && Quiet(inner.trace)
      modifies `pos, `cap, readerBuf, inner`trace, inner`received, inner`patience, inner`input
      ensures Valid() && ReadAs(old(Output()), Unit(r), Output(), gated) && inner.patience <= old(inner.patience)
      ensures FillWay(old(Input()), old(inner.trace), r, inner.trace)
      ensures Filled(old(Input()), r, Input())
      ensures r == Err(Interrupted) ==> inner.patience < old(inner.patience)
    {
      RanNothing(inner.trace, false);
      if pos >= cap {
        var filled := Refill(gated);
        if filled.IsFailure() {
          return filled.PropagateFailure();
        }
      }
      return Ok(readerBuf[pos..cap]);
    }

    /** Skips buffered bytes; `given` are those skipped. */
    method Consume(amount: nat) returns (ghost given: seq<byte>)
      requires Valid()
      modifies `pos
      ensures Valid() && Consumed(old(Input()), amount, given, Input())
    {
      given := readerBuf[pos..cap][..Min(amount, cap - pos)];
      assert readerBuf[pos..cap][|given|..] == readerBuf[pos + |given|..cap];
      pos := Min(pos + amount, cap);
    }

    /** Reads from the device past the (empty) reader buffer. */
    method ReadAround(room: nat, ghost gated: bool) returns (r: Outcome<seq<byte>>)
      requires pos == cap
      requires Valid()
      requires gated ==> writerBuf == [] && Quiet(inner.trace)
      modifies `pos, `cap, readerBuf, inner`trace, inner`received, inner`patience, inner`input
      ensures Valid() && ReadAs(old(Output()), Unit(r), Output(), gated) && inner.patience <= old(inner.patience)
      ensures Called(old(inner.trace), room, Handed(r), Unit(r), inner.trace)
      ensures Took(old(Input()), room, Handed(r), Unit(r), Input())
    {
      ghost var s := Input();
      pos, cap := 0, 0;
      r := ReadDevice(room, gated);
      TookAround(s, room, r, Input());
    }

    /** Takes up to `room` bytes from the reader buffer, filling it first if it is empty. */
    method ReadThrough(room: nat, ghost gated: bool) returns (r: Outcome<seq<byte>>)
      requires pos == cap ==> room < readerBuf.Length
      requires Valid()
      requires gated ==> writerBuf == [] && Quiet(inner.trace)
      modifies `pos, `cap, readerBuf, inner`trace, inner`received, inner`patience, inner`input
      ensures Valid() && ReadAs(old(Output()), Unit(r), Output(), gated) && inner.patience <= old(inner.patience)
      ensures ReadWay(old(Input()), room, old(inner.trace), Handed(r), Unit(r), inner.trace)
      ensures Took(old(Input()), room, Handed(r), Unit(r), Input())
    {
      ghost var s := Input();
      var filled := FillBuf(gated);
      ghost var s1 := Input();
      if filled.IsFailure() {
        FillFails(s, filled, room, s1);
        return filled.PropagateFailure();
      }
      var available := filled.value;
      var size := Min(|available|, room);
      ghost var given := Consume(size);
      FilledThenConsumed(s, filled, s1, room, size, given, Input());
      return Ok(available[..size]);
    }

    /** Gets up to `room` bytes of input, past the reader buffer when it is empty and no larger. */
    method Fetch(room: nat, ghost gated: bool) returns (r: Outcome<seq<byte>>)
      requires Valid()
      requires gated ==> writerBuf == [] && Quiet(inner.trace)
      modifies `pos, `cap, readerBuf, inner`trace, inner`received, inner`patience, inner`input
      ensures Valid() && ReadAs(old(Output()), Unit(r), Output(), gated) && inner.patience <= old(inner.patience)
      ensures ReadWay(old(Input()), room, old(inner.trace), Handed(r), Unit(r), inner.trace)
      ensures Took(old(Input()), room, Handed(r), Unit(r), Input())
    {
      if pos == cap && room >= readerBuf.Length {
        r := ReadAround(room, gated);
      } else {
        r := ReadThrough(room, gated);
      }
    }

    /** Reads into `buf`; `got` are the bytes it put there. */
    method Read(buf: array<byte>, ghost gated: bool) returns (r: Outcome<nat>, ghost got: seq<byte>)
      requires Valid() && buf != readerBuf
      requires gated ==> writerBuf == [] && Quiet(inner.trace)
      modifies `pos, `cap, readerBuf, buf, inner`trace, inner`received, inner`patience, inner`input
      ensures Valid() && ReadAs(old(Output()), Unit(r), Output(), gated) && inner.patience <= old(inner.patience)
      ensures ReadWay(old(Input()), buf.Length, old(inner.trace), got, Unit(r), inner.trace)
      ensures Took(old(Input()), buf.Length, got, Unit(r), Input())
      ensures Overwritten(got, old(buf[..]), |got|, buf[..]) && (r.Ok? ==> r.value == |got|)
    {
      got := [];
      var bytes :- Fetch(buf.Length, gated);
      got := bytes;
      ghost var s, input := Output(), Input();
      CopyInto(bytes, buf);
      assert Input() == input && Output() == s;
      r := Ok(|bytes|);
    }

    /** Reads into the slices in order; `got` are the bytes it put there. */
    method ReadVectored(bufs: seq<array<byte>>, ghost gated: bool) returns (r: Outcome<nat>, ghost got: seq<byte>)
      requires Valid() && readerBuf !in bufs && Distinct(bufs)
      requires gated ==> writerBuf == [] && Quiet(inner.trace)
      modifies `pos, `cap, readerBuf, bufs, inner`trace, inner`received, inner`patience, inner`input
      ensures Valid() && ReadAs(old(Output()), Unit(r), Output(), gated) && inner.patience <= old(inner.patience)
      ensures ReadWay(old(Input()), TotalLen(bufs), old(inner.trace), got, Unit(r), inner.trace)
      ensures Took(old(Input()), TotalLen(bufs), got, Unit(r), Input())
      ensures Overwritten(got, old(Gather(bufs)), |got|, Gather(bufs)) && (r.Ok? ==> r.value == |got|)
    {
      var fetched := FetchApart(bufs, gated);
      got := Handed(fetched);
      if fetched.IsFailure() {
        OverwrittenNothing(Gather(bufs));
        return fetched.PropagateFailure(), [];
      }
      var n := HandOut(fetched.value, bufs);
      r := Ok(n);
    }

    /** Gets as much as fits the caller's slices, which are apart from the buffers. */
    method FetchApart(bufs: seq<array<byte>>, ghost gated: bool) returns (r: Outcome<seq<byte>>)
      requires Valid() && readerBuf !in bufs
      requires gated ==> writerBuf == [] && Quiet(inner.trace)
      modifies `pos, `cap, readerBuf, inner`trace, inner`received, inner`patience, inner`input
      ensures Valid() && ReadAs(old(Output()), Unit(r), Output(), gated) && inner.patience <= old(inner.patience)
      ensures ReadWay(old(Input()), TotalLen(bufs), old(inner.trace), Handed(r), Unit(r), inner.trace)
      ensures Took(old(Input()), TotalLen(bufs), Handed(r), Unit(r), Input())
      ensures Gather(bufs) == old(Gather(bufs))
    {
      r := Fetch(TotalLen(bufs), gated);
    }

    /** Copies what was read into the caller's slices, which are apart from the buffers. */
    method HandOut(bytes: seq<byte>, bufs: seq<array<byte>>) returns (n: nat)
      requires Valid() && readerBuf !in bufs && Distinct(bufs) && |bytes| <= TotalLen(bufs)
      modifies bufs
      ensures Valid() && Input() == old(Input()) && Output() == old(Output())
      ensures n == |bytes| && Overwritten(bytes, old(Gather(bufs)), n, Gather(bufs))
    {
      n := Scatter(bytes, bufs);
    }

    /** Takes what is buffered, after filling the buffer if it is empty, up to and including
        the first `delim`. */
    method TakePiece(delim: byte, ghost gated: bool) returns (r: Outcome<seq<byte>>)
      requires Valid()
      requires gated ==> writerBuf == [] && Quiet(inner.trace)
      modifies `pos, `cap, readerBuf, inner`trace, inner`received, inner`patience, inner`input
      ensures Valid() && ReadAs(old(Output()), Unit(r), Output(), gated) && inner.patience <= old(inner.patience)
      ensures TookPiece(old(Input()), delim, r, Input())
      ensures PieceWay(old(Input()), delim, old(inner.trace), r, inner.trace, Input())
      ensures r == Err(Interrupted) ==> inner.patience < old(inner.patience)
    {
      ghost var s, t := Input(), inner.trace;
      r := FillBuf(gated);
      ghost var s1 := Input();
      if r.Ok? {
        ghost var view := r;
        var found := Through(delim, r.value);
        ghost var given := Consume(|found|);
        PieceConsumed(s, view.value, s1, delim, given, Input());
        PieceGoes(s, delim, t, view, inner.trace, s1, given, Input());
        r := Ok(found);
      }
    }

    /** Appends the input through the first `delim`, or all of it, to `buf`; `got` is what it
        appended. */
    method ReadUntil(delim: byte, buf: seq<byte>, ghost gated: bool)
      returns (r: Outcome<nat>, out: seq<byte>, ghost got: seq<byte>)
      requires Valid()
      requires gated ==> writerBuf == [] && Quiet(inner.trace)
      modifies `pos, `cap, readerBuf, inner`trace, inner`received, inner`patience, inner`input
      ensures Valid() && ReadAs(old(Output()), Unit(r), Output(), gated) && inner.patience <= old(inner.patience)
      ensures TookThrough(old(Input()), delim, got, Unit(r), Input())
      ensures UntilWay(old(Input()), delim, old(inner.trace), got, Unit(r), inner.trace)
      ensures out == buf + got && (r.Ok? ==> r.value == |got|) && r != Err(Interrupted)
    {
      ghost var s, start := Output(), Input();
      SearchStarts(start, delim, s.trace);
      RanNothing(inner.trace, false);
      var read, done := 0, false;
      r, out, got := Ok(0), buf, [];
      while !done
        invariant Valid() && inner.patience <= old(inner.patience)
        invariant ReadAs(s, if done then Unit(r) else Ok(()), Output(), gated)
        invariant gated ==> Quiet(inner.trace)
        invariant out == buf + got && read == |got| && (r.Ok? ==> r.value == |got|) && r != Err(Interrupted)
        invariant if done then Searched(start, delim, s.trace, got, Unit(r), inner.trace, Input())
                  else Searching(start, delim, s.trace, got, inner.trace, Input())
        decreases !done, inner.patience, |Input().Stream()|
      {
        ghost var before, now := Output(), Input();
        var piece := TakePiece(delim, gated);
        ReadAsTransitive(s, before, Unit(piece), Output(), gated);
        SearchGoesOn(start, delim, s.trace, got, before.trace, now, piece, inner.trace, Input());
        if piece.Ok? {
          var found := piece.value;
          Associate(buf, got, found);
          out, read := out + found, read + |found|;
          got := got + found;
          r, done := Ok(read), delim in found || |found| == 0;
        } else if piece != Err(Interrupted) {
          r, done := piece.PropagateFailure(), true;
        }
      }
    }

    /** Sends what is buffered and moves the device out; on an error the buffers keep it. */
    method IntoInner() returns (r: Outcome<Device>)
      requires Valid()
      modifies `writerBuf, `panicked, `detached, inner`trace, inner`received, inner`patience
      ensures Sound() && detached == r.Ok? && (r.Ok? ==> r.value == inner)
      ensures Emptied(old(Output()), Unit(r), Output()) && Flushed(old(Output()), Unit(r), Output())
    {
      var _ :- FlushBuf();
      detached := true;
      return Ok(inner);
    }

    /** The destructor. */
    method Drop() returns (ghost r: Outcome<()>)
      requires detached || Intact()
      modifies `writerBuf, `panicked, inner`trace, inner`received, inner`patience
      ensures old(detached) || old(Output()).Poisoned() ==> Output() == old(Output())
      ensures old(!detached && !panicked) ==> Flushed(old(Output()), r, Output())
      ensures old(!detached && !panicked) ==> Emptied(old(Output()), r, Output())
      ensures old(Sound()) ==> Sound()
    {
      r := Ok(());
      if !detached && !panicked {
        ghost var s := Output();
        r := FlushBuf();
        if s.buffered == [] {
          DrainedNothing(s.trace, inner.trace, r, writerBuf);
        }
      }
    }
  }
}
