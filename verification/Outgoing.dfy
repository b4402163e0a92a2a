/** The outgoing half of the buffers as a value, and what each operation on it promises. */
module Outgoing {
  import opened Bytes
  import opened Devices

  /** What the device has taken, what is buffered, the calls made so far, and the flag
      that is set while a device write is in progress. */
  datatype Out = Out(received: seq<byte>, buffered: seq<byte>, capacity: nat, trace: Trace, panicked: bool)
  {
    /** The outgoing stream. */
    ghost function Stream(): seq<byte> {
      received + buffered
    }

    /** What even an unwinding panic leaves standing. */
    ghost predicate Intact() {
      Disciplined(trace) && |buffered| <= capacity
    }

    ghost predicate Valid() {
      Intact() && !panicked
    }

    /** After a panic in a device write the destructor has nothing to write. */
    ghost predicate Poisoned() {
      Intact() && (panicked || buffered == [])
    }
  }

  /** What an operation that ended as `r` may do at all. */
  ghost predicate Worked(s: Out, r: Outcome<()>, s': Out, writes: bool) {
    s'.capacity == s.capacity && Ran(s'.trace, s.trace, r, writes)
  }

  /** `Ok(n)` adds exactly the first `n` bytes of the argument to the stream and a failure
      adds nothing; what the device holds after a panic is part of the stream followed by
      the argument. */
  ghost predicate Acked(s: Out, arg: seq<byte>, r: Outcome<nat>, s': Out) {
    && Worked(s, Unit(r), s', true)
    && match r
       case Ok(n) => s'.Valid() && n <= |arg| && s'.Stream() == s.Stream() + arg[..n]
       case Err(_) => s'.Valid() && s'.Stream() == s.Stream()
       case Panicked => s'.Poisoned() && s'.received <= s.Stream() + arg
  }

  /** The same for an operation that takes all or fails: a failure adds some prefix. */
  ghost predicate AckedAll(s: Out, arg: seq<byte>, r: Outcome<()>, s': Out) {
    && Worked(s, r, s', true)
    && match r
       case Ok(_) => s'.Valid() && s'.Stream() == s.Stream() + arg
       case Err(_) => s'.Valid() && AddsSome(s.Stream(), arg, s'.Stream())
       case Panicked => s'.Poisoned() && s'.received <= s.Stream() + arg
  }

  ghost predicate AddsSome(was: seq<byte>, arg: seq<byte>, now: seq<byte>) {
    exists n: nat :: n <= |arg| && now == was + arg[..n]
  }

  /** The stream is as it was. */
  ghost predicate KeptStream(s: Out, r: Outcome<()>, s': Out) {
    if r.Panicked? then s'.Poisoned() && s'.received <= s.Stream()
    else s'.Valid() && s'.Stream() == s.Stream()
  }

  /** Nothing new has been accepted, and what is buffered is the end of what was. */
  ghost predicate NothingNew(s: Out, r: Outcome<()>, s': Out) {
    && KeptStream(s, r, s')
    && FreshWrites(s'.trace) == FreshWrites(s.trace) && ReadsGated(s'.trace, s.trace)
    && IsSuffix(s'.buffered, s.buffered)
    && (r.Ok? ==> s'.buffered == [] && s'.received == s.Stream())
  }

  /** The buffer has been sent, or some of it, and nothing else was done. */
  ghost predicate Emptied(s: Out, r: Outcome<()>, s': Out) {
    Worked(s, r, s', true) && NothingNew(s, r, s')
  }

  /** A flush through to the device: nothing is left behind, and the device was told to
      flush, once, after the last byte reached it; not if the buffer could not be sent. */
  ghost predicate FlushedThrough(s: Out, r: Outcome<()>, s': Out) {
    && Worked(s, r, s', false) && NothingNew(s, r, s')
    && (r.Ok? ==> Synced(s'.trace))
    && SentFirst(s'.trace, s.trace, r)
  }

  ghost predicate SentFirst(t: Trace, t0: Trace, r: Outcome<()>) {
    if t.Then? && t.latest.FlushEvent? then WentOn(t.earlier, t0, true)
    else Ran(t, t0, r, true)
  }

  /** A flush of the buffer. */
  ghost predicate Flushed(s: Out, r: Outcome<()>, s': Out) {
    && s'.Intact() && s'.capacity == s.capacity && s'.panicked == r.Panicked?
    && Drained(s.buffered, s.trace, s'.trace, r, s'.buffered)
  }

  /** One device write of fresh bytes, made with nothing buffered. */
  ghost predicate WroteFresh(s: Out, data: seq<byte>, w: Outcome<nat>, taken: nat, armed: bool, s': Out) {
    && taken <= |data| && (w.Ok? ==> taken == w.value)
    && s.buffered == []
    && s' == Out(s.received + data[..taken], [], s.capacity,
                 Then(s.trace, WriteEvent(data, taken, w, Fresh, armed, [])), armed && w.Panicked?)
  }

  /** The calls that took the record from `t0` to `t` offered the buffer `buf` front to back,
      each time all that was left of it, and got as far as `rest`. */
  ghost predicate Draining(buf: seq<byte>, t0: Trace, t: Trace, rest: seq<byte>) {
    if t == t0 then rest == buf
    else
      && t.Then?
      && var e := t.latest;
      && e.WriteEvent? && e.origin.Retained? && e.armed && e.retained == buf
      && e.offered != [] && e.taken <= |e.offered| && rest == e.offered[e.taken..]
      && (if e.taken == 0 then e.outcome == Err(Interrupted) else e.outcome == Ok(e.taken))
      && Draining(buf, t0, t.earlier, e.offered)
  }

  /** A whole flush: it ends when nothing is left, or at the first call that takes nothing,
      fails for another reason than an interruption, or panics. */
  ghost predicate Drained(buf: seq<byte>, t0: Trace, t: Trace, r: Outcome<()>, rest: seq<byte>) {
    if r.Ok? then rest == [] && Draining(buf, t0, t, rest)
    else
      && t.Then?
      && var e := t.latest;
      && e.WriteEvent? && e.origin.Retained? && e.armed && e.retained == buf
      && e.offered == rest && rest != []
      && (r.Panicked? <==> e.outcome.Panicked?)
      && (r.Err? ==> e.taken == 0 && r.kind != Interrupted &&
                     e.outcome == if r.kind.WriteZero? && e.outcome.Ok? then Ok(0) else Err(r.kind))
      && Draining(buf, t0, t.earlier, rest)
  }

  lemma {:induction false} DrainingConserves(buf: seq<byte>, t0: Trace, t: Trace, rest: seq<byte>)
    requires Draining(buf, t0, t, rest)
    ensures Delivered(t) + rest == Delivered(t0) + buf
    ensures Delivered(t0) <= Delivered(t) && IsSuffix(rest, buf)
    ensures Extends(t, t0) && FreshWrites(t) == FreshWrites(t0)
  {
    if t != t0 {
      var e := t.latest;
      DrainingConserves(buf, t0, t.earlier, e.offered);
      assert e.offered == e.offered[..e.taken] + rest;
      Associate(Delivered(t.earlier), e.offered[..e.taken], rest);
      SuffixOfSuffix(rest, e.offered, buf);
    }
  }

  lemma FailedTaking(delivered: seq<byte>, e: Event, rest: seq<byte>)
    requires e.WriteEvent? && e.offered == rest
    ensures delivered <= delivered + Taken(e) <= delivered + rest
    ensures e.taken == 0 ==> delivered + Taken(e) == delivered
  {
  }

  /** A flush splits the buffer in two: what the device took, and what is still buffered.
      Only a call that panics can have taken bytes that are still buffered. */
  lemma DrainedConserves(buf: seq<byte>, t0: Trace, t: Trace, r: Outcome<()>, rest: seq<byte>)
    requires Drained(buf, t0, t, r, rest)
    ensures r.Ok? <==> rest == []
    ensures !r.Panicked? ==> Delivered(t) + rest == Delivered(t0) + buf
    ensures r.Panicked? ==> Delivered(t) <= Delivered(t0) + buf
    ensures Delivered(t0) <= Delivered(t)
    ensures IsSuffix(rest, buf)
    ensures Extends(t, t0) && FreshWrites(t) == FreshWrites(t0)
  {
    if r.Ok? {
      DrainingConserves(buf, t0, t, rest);
    } else {
      DrainingConserves(buf, t0, t.earlier, rest);
      FailedTaking(Delivered(t.earlier), t.latest, rest);
    }
  }

  /** What a flush loop maintains: `written` bytes of the buffer are gone and the calls so
      far account for them, up to the call that ended it. */
  ghost predicate Flushing(buf: seq<byte>, t0: Trace, t: Trace, r: Outcome<()>, written: nat) {
    && written <= |buf|
    && if r.Ok? then Draining(buf, t0, t, buf[written..]) else Drained(buf, t0, t, r, buf[written..])
  }

  /** One round of the loop. */
  lemma FlushingStep(buf: seq<byte>, t0: Trace, t: Trace, written: nat, taken: nat, w: Outcome<nat>,
                     r: Outcome<()>, t': Trace, written': nat)
    requires written < |buf| && Draining(buf, t0, t, buf[written..])
    requires taken <= |buf| - written && (w.Ok? ==> taken == w.value) && (w.Err? ==> taken == 0)
    requires match w
             case Ok(n) => if n == 0 then r.Err? && r.kind.WriteZero? else r.Ok?
             case Err(kind) => if kind.Interrupted? then r.Ok? else r.Err? && r.kind == kind
             case Panicked => r.Panicked?
    requires t' == Then(t, WriteEvent(buf[written..], taken, w, Retained, true, buf))
    requires written' == if w.Ok? then written + taken else written
    ensures Flushing(buf, t0, t', r, written')
  {
    DrainingConserves(buf, t0, t, buf[written..]);
    ExtendsLonger(t, t0);
    assert t'.Length() == t.Length() + 1;
    assert buf[written..][taken..] == buf[written + taken..];
  }

  /** Each call of a flush offers exactly the bytes that no earlier call got taken. */
  lemma {:induction false} DrainingOffersTheRest(buf: seq<byte>, t0: Trace, t: Trace, rest: seq<byte>,
                                                 before: Trace, e: Event)
    requires Draining(buf, t0, t, rest)
    requires Extends(t, Then(before, e)) && Extends(before, t0)
    ensures e.WriteEvent? && Delivered(before) + e.offered == Delivered(t0) + buf
    decreases t
  {
    if t == t0 {
      ExtendsLonger(before, t0);
      ExtendsLonger(t, Then(before, e));
      assert false;
    } else if t == Then(before, e) {
      DrainingConserves(buf, t0, before, e.offered);
    } else {
      DrainingOffersTheRest(buf, t0, t.earlier, t.latest.offered, before, e);
    }
  }

  /** A flush makes no reads. */
  lemma {:induction false} DrainingReadsNothing(buf: seq<byte>, t0: Trace, t: Trace, rest: seq<byte>)
    requires Draining(buf, t0, t, rest)
    ensures ReadsGated(t, t0)
  {
    if t != t0 {
      DrainingReadsNothing(buf, t0, t.earlier, t.latest.offered);
    }
  }

  /** With nothing buffered a flush makes no call. */
  lemma DrainedNothing(t0: Trace, t: Trace, r: Outcome<()>, rest: seq<byte>)
    requires Drained([], t0, t, r, rest)
    ensures r.Ok? && t == t0
  {
    DrainedConserves([], t0, t, r, rest);
    if t != t0 && r.Ok? {
      DrainingConserves([], t0, t.earlier, t.latest.offered);
    }
  }

  lemma {:induction false} DrainingRan(buf: seq<byte>, t0: Trace, t: Trace, rest: seq<byte>)
    requires Draining(buf, t0, t, rest)
    ensures Ran(t, t0, Ok(()), true)
  {
    if t == t0 {
      RanNothing(t, true);
    } else {
      DrainingRan(buf, t0, t.earlier, t.latest.offered);
      RanOn(t.earlier, t0, t.latest, Ok(()), true);
    }
  }

  /** A flush offers only what was buffered, reads nothing, and ends as its last call. */
  lemma DrainedCalls(buf: seq<byte>, t0: Trace, t: Trace, r: Outcome<()>, rest: seq<byte>)
    requires Drained(buf, t0, t, r, rest)
    ensures Extends(t, t0) && FreshWrites(t) == FreshWrites(t0) && ReadsGated(t, t0) && Ran(t, t0, r, true)
  {
    DrainedConserves(buf, t0, t, r, rest);
    var t1 := if r.Ok? then t else t.earlier;
    DrainingReadsNothing(buf, t0, t1, rest);
    DrainingRan(buf, t0, t1, rest);
    if !r.Ok? {
      RanOn(t1, t0, t.latest, r, true);
    }
  }

  /** What a flush leaves of the stream, given what it delivered. */
  lemma FlushedStream(s: Out, r: Outcome<()>, s': Out)
    requires s.Valid() && s'.Intact() && s'.panicked == r.Panicked?
    requires r.Ok? <==> s'.buffered == []
    requires if r.Panicked? then s'.received <= s.Stream() else s'.Stream() == s.Stream()
    ensures KeptStream(s, r, s') && (r.Ok? ==> s'.received == s.Stream())
  {
    AddNothing(s'.received);
  }

  /** A flush leaves the stream as it was, and buffers the end of what was buffered. */
  lemma FlushedKeepsStream(s: Out, r: Outcome<()>, s': Out)
    requires s.Valid() && Flushed(s, r, s')
    requires s.received == Delivered(s.trace) && s'.received == Delivered(s'.trace)
    ensures Emptied(s, r, s') && (r.Ok? <==> s'.buffered == [])
  {
    DrainedConserves(s.buffered, s.trace, s'.trace, r, s'.buffered);
    DrainedCalls(s.buffered, s.trace, s'.trace, r, s'.buffered);
    FlushedStream(s, r, s');
  }

  /** Telling the device to flush once the buffer is out. */
  lemma DeviceFlushed(s: Out, s1: Out, r: Outcome<()>, s': Out)
    requires Emptied(s, Ok(()), s1) && s' == s1.(trace := Then(s1.trace, FlushEvent(r)))
    ensures FlushedThrough(s, r, s')
  {
    DisciplineGrows(s1.trace, FlushEvent(r));
    RanOn(s1.trace, s.trace, FlushEvent(r), r, false);
    AddNothing(s1.received);
  }

  /** A flush that could not send the buffer. */
  lemma NotFlushed(s: Out, r: Outcome<()>, s': Out)
    requires Emptied(s, r, s') && !r.Ok?
    ensures FlushedThrough(s, r, s')
  {
  }

  lemma KeptThenAcked(s: Out, s1: Out, arg: seq<byte>, r: Outcome<nat>, s': Out)
    requires Worked(s, Ok(()), s1, true) && KeptStream(s, Ok(()), s1) && Acked(s1, arg, r, s')
    ensures Acked(s, arg, r, s')
  {
    RanTransitive(s'.trace, s1.trace, s.trace, Unit(r), true);
  }

  lemma KeptThenAckedAll(s: Out, s1: Out, arg: seq<byte>, r: Outcome<()>, s': Out)
    requires Worked(s, Ok(()), s1, true) && KeptStream(s, Ok(()), s1) && AckedAll(s1, arg, r, s')
    ensures AckedAll(s, arg, r, s')
  {
    RanTransitive(s'.trace, s1.trace, s.trace, r, true);
  }

  /** A write that stops at the flush before it. */
  lemma KeptFails(s: Out, arg: seq<byte>, r: Outcome<()>, s': Out)
    requires Worked(s, r, s', true) && KeptStream(s, r, s') && !r.Ok?
    ensures Acked(s, arg, r.PropagateFailure(), s') && AckedAll(s, arg, r, s')
  {
    AddNothing(s.Stream());
    assert Unit<nat>(r.PropagateFailure()) == r;
    if r.Err? {
      assert arg[..0] == [];
      assert s'.Stream() == s.Stream() + arg[..0];
    }
  }

  /** A device write of new bytes, with nothing buffered. */
  lemma WroteFreshIntact(s: Out, data: seq<byte>, w: Outcome<nat>, taken: nat, armed: bool, s': Out)
    requires s.Valid() && WroteFresh(s, data, w, taken, armed, s')
    ensures s'.Intact() && (w.Panicked? ==> s'.Poisoned()) && (!w.Panicked? ==> s'.Valid())
    ensures s'.Stream() == s'.received == s.Stream() + data[..taken]
    ensures s'.received <= s.Stream() + data
    ensures FreshWrites(s'.trace) == FreshWrites(s.trace) + 1 && Worked(s, Unit(w), s', true)
  {
    RanNothing(s.trace, true);
    RanOn(s.trace, s.trace, s'.trace.latest, Unit(w), true);
    DisciplineGrows(s.trace, s'.trace.latest);
    AddNothing(s.received);
    AddNothing(s'.received);
    PrefixGrows(s.Stream(), data, taken);
  }

  lemma DirectWriteAcks(s: Out, data: seq<byte>, w: Outcome<nat>, taken: nat, armed: bool, s': Out)
    requires s.Valid() && WroteFresh(s, data, w, taken, armed, s') && (w.Err? ==> taken == 0)
    ensures Acked(s, data, w, s')
  {
    WroteFreshIntact(s, data, w, taken, armed, s');
    if w.Err? {
      AddNothing(s.Stream());
      assert data[..0] == [];
    }
  }

  lemma DirectWriteAllAcks(s: Out, data: seq<byte>, r: Outcome<()>, taken: nat, armed: bool, s': Out)
    requires s.Valid() && WroteFresh(s, data, Counted(r, |data|), taken, armed, s')
    ensures AckedAll(s, data, r, s')
  {
    WroteFreshIntact(s, data, Counted(r, |data|), taken, armed, s');
    if r.Ok? {
      assert data[..taken] == data;
    }
  }

  /** Buffering the argument behind what is buffered. */
  lemma BufferingAcks(s: Out, data: seq<byte>, n: nat, r: Outcome<nat>, s': Out)
    requires s.Valid() && n <= |data| && s' == s.(buffered := s.buffered + data[..n]) && |s'.buffered| <= s.capacity
    requires r.Ok? && r.value == n
    ensures Acked(s, data, r, s') && (n == |data| ==> AckedAll(s, data, Ok(()), s'))
  {
    RanNothing(s.trace, true);
    Associate(s.received, s.buffered, data[..n]);
    if n == |data| {
      assert data[..n] == data;
    }
  }

  /** What is acknowledged of a first part of the argument is acknowledged of the argument. */
  lemma AckedPart(s: Out, part: seq<byte>, arg: seq<byte>, r: Outcome<nat>, s': Out)
    requires Acked(s, part, r, s') && part <= arg
    ensures Acked(s, arg, r, s')
  {
    if r.Ok? {
      assert part[..r.value] == arg[..r.value];
    } else if r.Panicked? {
      PrefixGrows(s.Stream(), arg, |part|);
      assert arg[..|part|] == part;
    }
  }

  /** Some bytes of the argument sent, and some of those after them buffered. */
  lemma TailAcks(s: Out, arg: seq<byte>, taken: nat, s2: Out, n: nat, s': Out, r: Outcome<nat>)
    requires s2.Valid() && s2.buffered == [] && Worked(s, Ok(()), s2, true)
    requires taken + n <= |arg| && n <= s.capacity && s2.received == s.Stream() + arg[..taken]
    requires s' == s2.(buffered := arg[taken..taken + n]) && r.Ok? && r.value == taken + n
    ensures Acked(s, arg, r, s')
  {
    Associate(s.Stream(), arg[..taken], arg[taken..taken + n]);
    assert arg[..taken] + arg[taken..taken + n] == arg[..taken + n];
  }

  lemma AddsSomeOf(was: seq<byte>, head: seq<byte>, tail: seq<byte>, now: seq<byte>)
    requires AddsSome(was, head, now)
    ensures AddsSome(was, head + tail, now)
  {
    var n: nat :| n <= |head| && now == was + head[..n];
    assert (head + tail)[..n] == head[..n];
  }

  lemma AddsSomeAfter(was: seq<byte>, head: seq<byte>, tail: seq<byte>, now: seq<byte>)
    requires AddsSome(was + head, tail, now)
    ensures AddsSome(was, head + tail, now)
  {
    var n: nat :| n <= |tail| && now == was + head + tail[..n];
    Associate(was, head, tail[..n]);
    assert (head + tail)[..|head| + n] == head + tail[..n];
  }

  /** A first part of the argument that is not accepted whole. */
  lemma PartFails(s: Out, head: seq<byte>, tail: seq<byte>, r: Outcome<()>, s': Out)
    requires AckedAll(s, head, r, s') && !r.Ok?
    ensures AckedAll(s, head + tail, r, s')
  {
    if r.Err? {
      AddsSomeOf(s.Stream(), head, tail, s'.Stream());
    } else {
      Associate(s.Stream(), head, tail);
    }
  }

  /** A first part accepted whole, and then the rest tried. */
  lemma PartThenRest(s: Out, head: seq<byte>, f: Outcome<()>, s1: Out, tail: seq<byte>, r: Outcome<()>, s': Out)
    requires AckedAll(s, head, f, s1) && f.Ok? && AckedAll(s1, tail, r, s')
    ensures AckedAll(s, head + tail, r, s')
  {
    RanTransitive(s'.trace, s1.trace, s.trace, r, true);
    Associate(s.Stream(), head, tail);
    if r.Err? {
      AddsSomeAfter(s.Stream(), head, tail, s'.Stream());
    }
  }

  /** An argument accepted whole, and then the buffer sent, or not. */
  lemma AllThenEmptied(s: Out, arg: seq<byte>, s1: Out, r: Outcome<()>, s': Out)
    requires AckedAll(s, arg, Ok(()), s1) && Worked(s1, r, s', true) && KeptStream(s1, r, s')
    ensures AckedAll(s, arg, r, s')
  {
    RanTransitive(s'.trace, s1.trace, s.trace, r, true);
    if r.Err? {
      assert arg[..|arg|] == arg;
    }
  }

  /** Room for `len` more bytes: either there was, or the buffer has been flushed. */
  ghost predicate RoomMade(s: Out, len: nat, r: Outcome<()>, s': Out) {
    if |s.buffered| + len <= s.capacity then r.Ok? && s' == s else Emptied(s, r, s')
  }

  lemma RoomMadeKeeps(s: Out, len: nat, r: Outcome<()>, s': Out)
    requires s.Valid() && RoomMade(s, len, r, s')
    ensures Worked(s, r, s', true) && KeptStream(s, r, s') && IsSuffix(s'.buffered, s.buffered)
    ensures FreshWrites(s'.trace) == FreshWrites(s.trace)
  {
    RanNothing(s.trace, true);
  }

  /** Where a buffered write puts its argument: behind what is buffered if it fits, else
      in the emptied buffer, else, when it is no smaller than the buffer, into one device
      call. */
  ghost predicate Placed(s: Out, arg: seq<byte>, r: Outcome<nat>, s': Out) {
    && (r.Err? ==> IsSuffix(s'.buffered, s.buffered))
    && if |arg| < s.capacity then
         && FreshWrites(s'.trace) == FreshWrites(s.trace)
         && (r.Ok? ==> r.value == |arg|)
         && (|s.buffered| + |arg| <= s.capacity ==> r.Ok? && s' == s.(buffered := s.buffered + arg))
         && (|s.buffered| + |arg| > s.capacity && r.Ok? ==> s'.buffered == arg)
       else
         && FreshWrites(s'.trace) <= FreshWrites(s.trace) + 1
         && (r.Ok? ==> s'.buffered == [] && s'.trace.Then? &&
                       s'.trace.latest == WriteEvent(arg, r.value, r, Fresh, true, []))
  }

  ghost predicate PlacedAll(s: Out, arg: seq<byte>, r: Outcome<()>, s': Out) {
    && (r.Err? ==> IsSuffix(s'.buffered, s.buffered))
    && if |arg| < s.capacity then
         && FreshWrites(s'.trace) == FreshWrites(s.trace)
         && (|s.buffered| + |arg| <= s.capacity ==> r.Ok? && s' == s.(buffered := s.buffered + arg))
         && (|s.buffered| + |arg| > s.capacity && r.Ok? ==> s'.buffered == arg)
       else
         && FreshWrites(s'.trace) <= FreshWrites(s.trace) + 1
         && (r.Ok? ==> s'.buffered == [] && s'.trace.Then? &&
                       s'.trace.latest == WriteEvent(arg, |arg|, Ok(|arg|), Fresh, true, []))
  }

  /** A write that finds no room. */
  lemma NoRoomMade(s: Out, arg: seq<byte>, r: Outcome<()>, s': Out)
    requires s.Valid() && RoomMade(s, |arg|, r, s') && !r.Ok?
    ensures Acked(s, arg, r.PropagateFailure(), s') && Placed(s, arg, r.PropagateFailure(), s')
    ensures AckedAll(s, arg, r, s') && PlacedAll(s, arg, r, s')
  {
    RoomMadeKeeps(s, |arg|, r, s');
    KeptFails(s, arg, r, s');
  }

  /** Room, then one direct write of an argument no smaller than the buffer. */
  lemma DirectWriteIsPlaced(s: Out, s1: Out, arg: seq<byte>, w: Outcome<nat>, taken: nat, s': Out)
    requires s.Valid() && RoomMade(s, |arg|, Ok(()), s1) && |arg| >= s.capacity
    requires WroteFresh(s1, arg, w, taken, true, s') && (w.Err? ==> taken == 0)
    ensures Acked(s, arg, w, s') && Placed(s, arg, w, s')
  {
    RoomMadeKeeps(s, |arg|, Ok(()), s1);
    DirectWriteAcks(s1, arg, w, taken, true, s');
    KeptThenAcked(s, s1, arg, w, s');
  }

  lemma DirectWriteAllIsPlaced(s: Out, s1: Out, arg: seq<byte>, r: Outcome<()>, taken: nat, s': Out)
    requires s.Valid() && RoomMade(s, |arg|, Ok(()), s1) && |arg| >= s.capacity
    requires WroteFresh(s1, arg, Counted(r, |arg|), taken, true, s')
    ensures AckedAll(s, arg, r, s') && PlacedAll(s, arg, r, s')
  {
    RoomMadeKeeps(s, |arg|, Ok(()), s1);
    DirectWriteAllAcks(s1, arg, r, taken, true, s');
    KeptThenAckedAll(s, s1, arg, r, s');
  }

  /** Room, then the argument buffered. */
  lemma BufferingIsPlaced(s: Out, s1: Out, arg: seq<byte>, r: Outcome<nat>, s': Out)
    requires s.Valid() && RoomMade(s, |arg|, Ok(()), s1) && |arg| < s.capacity
    requires s' == s1.(buffered := s1.buffered + arg) && r.Ok? && r.value == |arg|
    ensures Acked(s, arg, r, s') && Placed(s, arg, r, s')
    ensures AckedAll(s, arg, Ok(()), s') && PlacedAll(s, arg, Ok(()), s')
  {
    RoomMadeKeeps(s, |arg|, Ok(()), s1);
    assert arg[..|arg|] == arg;
    BufferingAcks(s1, arg, |arg|, r, s');
    KeptThenAcked(s, s1, arg, r, s');
    KeptThenAckedAll(s, s1, arg, Ok(()), s');
  }

  /** Reading calls the device to read and does nothing else to the outgoing half. */
  ghost predicate OnlyRead(s: Out, s': Out, gated: bool) {
    && s' == s.(trace := s'.trace) && OnlyReadsSince(s'.trace, s.trace)
    && (gated ==> ReadsGated(s'.trace, s.trace))
  }

  /** A read that ended as `r`. */
  ghost predicate ReadAs(s: Out, r: Outcome<()>, s': Out, gated: bool) {
    OnlyRead(s, s', gated) && Ran(s'.trace, s.trace, r, false)
  }

  lemma ReadAsTransitive(s: Out, s1: Out, r: Outcome<()>, s2: Out, gated: bool)
    requires ReadAs(s, Ok(()), s1, gated) && ReadAs(s1, r, s2, gated)
    ensures ReadAs(s, r, s2, gated) && (Quiet(s1.trace) ==> Quiet(s2.trace))
    ensures r.Err? && r.kind.Interrupted? ==> ReadAs(s, Ok(()), s2, gated)
  {
    if gated {
      ReadsGatedTransitive(s2.trace, s1.trace, s.trace);
    }
    ReadsTransitive(s2.trace, s1.trace, s.trace);
    ReadsKeep(s2.trace, s1.trace);
    RanTransitive(s2.trace, s1.trace, s.trace, r, false);
    if r.Err? && r.kind.Interrupted? {
      RanAgain(s2.trace, s.trace, r);
    }
  }
}
