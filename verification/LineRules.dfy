/** What a line-buffered writer retains, as pure functions and rules. */
module LineRules {
  import opened Bytes
  import opened Devices
  import opened Outgoing

  /** What to retain of `buf` when the device took `flushed` of its first `linesLen` bytes
      (its complete lines): the partial line if all lines are out, else the lines left if
      they fit, else the lines left that fit, else as much of one line as fits. */
  function Tail(buf: seq<byte>, flushed: nat, linesLen: nat, capacity: nat): (tail: seq<byte>)
    requires flushed <= linesLen <= |buf|
    ensures tail <= buf[flushed..]
  {
    if flushed >= linesLen then buf[flushed..]
    else if linesLen - flushed <= capacity then
      assert buf[flushed..linesLen] == buf[flushed..][..linesLen - flushed];
      buf[flushed..linesLen]
    else
      var scanArea := buf[flushed..][..capacity];
      match LastIndex(NEWLINE, scanArea)
      case Some(i) => scanArea[..i + 1]
      case None => scanArea
  }

  /** A prefix of `s` of length `n` that fits and ends a line. */
  predicate FitsLine(s: seq<byte>, n: nat, capacity: nat) {
    0 < n <= |s| && n <= capacity && s[n - 1] == NEWLINE
  }

  /** The longest prefix of `s` that fits and ends a line has length `k`; if there is none, `k` is
      as much as fits. */
  ghost predicate BestFit(s: seq<byte>, k: nat, capacity: nat) {
    && k <= |s| && k <= capacity
    && (forall n: nat :: FitsLine(s, n, capacity) ==> n <= k)
    && (!FitsLine(s, k, capacity) ==> k == capacity && forall n: nat :: !FitsLine(s, n, capacity))
  }

  /** When a newline is left unwritten, the tail is the longest prefix of the unwritten data
      that ends a line and fits; when no such prefix exists it is exactly as much as fits. */
  lemma {:induction false} TailIsOptimal(buf: seq<byte>, flushed: nat, capacity: nat)
    requires NEWLINE in buf && flushed < |CompletedLines(buf)|
    ensures var tail := Tail(buf, flushed, |CompletedLines(buf)|, capacity);
            BestFit(buf[flushed..], |tail|, capacity)
  {
    var linesLen, rest := |CompletedLines(buf)|, buf[flushed..];
    var tail := Tail(buf, flushed, linesLen, capacity);
    if linesLen - flushed <= capacity {
      forall n: nat | FitsLine(rest, n, capacity) ensures n <= |tail| {
        assert buf[flushed + n - 1] == NEWLINE;
        assert forall j :: linesLen <= j < |buf| ==> buf[j] in buf[linesLen..];
      }
    } else {
      var scanArea := rest[..capacity];
      forall n: nat | FitsLine(rest, n, capacity) ensures scanArea[n - 1] == NEWLINE && n <= |tail| {
        assert scanArea[n - 1] == NEWLINE;
        var i := LastIndex(NEWLINE, scanArea).value;
        assert forall j :: i + 1 <= j < |scanArea| ==> scanArea[j] in scanArea[i + 1..];
      }
    }
  }

  lemma {:induction false} TailKeepsDiscipline(buf: seq<byte>, flushed: nat, capacity: nat)
    requires NEWLINE in buf && flushed <= |CompletedLines(buf)|
    ensures var tail := Tail(buf, flushed, |CompletedLines(buf)|, capacity);
            && LineDiscipline(tail[..Min(capacity, |tail|)])
            && (flushed == |CompletedLines(buf)| ==> NEWLINE !in tail)
  {
    var linesLen := |CompletedLines(buf)|;
    var tail := Tail(buf, flushed, linesLen, capacity);
    if flushed == linesLen {
      assert tail == buf[linesLen..];
      PrefixWithoutNewline(tail, Min(capacity, |tail|));
    } else if linesLen - flushed <= capacity {
      assert tail[..Min(capacity, |tail|)] == tail && tail[|tail| - 1] == buf[linesLen - 1];
    } else {
      assert tail[..Min(capacity, |tail|)] == tail;
    }
  }

  lemma PrefixWithoutNewline(s: seq<byte>, n: nat)
    requires n <= |s| && NEWLINE !in s
    ensures NEWLINE !in s[..n]
  {
  }

  /** What a line-buffered write promises. New bytes go to the device in at most one call.
      With a newline in the argument that call is offered exactly the complete lines, with
      nothing buffered, and what is retained is the tail that the device's answer calls for.
      Without one it is a plain write, after a flush if a complete line is buffered. What is
      retained never hides a complete line behind a partial one. */
  ghost predicate LineWrote(s: Out, arg: seq<byte>, r: Outcome<nat>, s': Out) {
    && Acked(s, arg, r, s')
    && FreshWrites(s'.trace) <= FreshWrites(s.trace) + 1
    && (!r.Panicked? ==> LineDiscipline(s'.buffered))
    && (r.Err? ==> IsSuffix(s'.buffered, s.buffered))
    && (r.Ok? ==> if NEWLINE in arg then WroteLines(s, arg, r.value, s') else WrotePlain(s, arg, r.value, s'))
  }

  /** What is buffered once a partial line has been written plainly, with or without a flush
      before it. */
  function PlainlyBuffered(s: Out, arg: seq<byte>, flushed: bool): seq<byte> {
    if |arg| >= s.capacity then []
    else if flushed || |s.buffered| + |arg| > s.capacity then arg
    else s.buffered + arg
  }

  ghost predicate WrotePlain(s: Out, arg: seq<byte>, n: nat, s': Out) {
    && NEWLINE !in s'.buffered
    && s'.buffered == PlainlyBuffered(s, arg, NEWLINE in s.buffered)
    && if |arg| < s.capacity then
         && n == |arg|
         && (NEWLINE !in s.buffered && |s.buffered| + |arg| <= s.capacity ==> s' == s.(buffered := s.buffered + arg))
       else
         && s'.trace.Then?
         && var e := s'.trace.latest;
         && e.WriteEvent? && e.offered == arg && e.taken == n && e.outcome.Ok? && e.origin.Fresh? && e.armed
  }

  /** The lines were offered in one call. When it took them all, as much of the partial line as
      fits is retained; when it took some, the best fit of what it left; when none, nothing. */
  ghost predicate WroteLines(s: Out, arg: seq<byte>, n: nat, s': Out) {
    var lines := CompletedLines(arg);
    && s'.trace.Then?
    && var e := s'.trace.latest;
    && e.WriteEvent? && e.offered == lines && e.outcome.Ok? && e.taken <= |lines|
    && e.origin.Fresh? && e.retained == []
    && e.taken <= n <= |arg| && s'.buffered == arg[e.taken..n]
    && if e.taken == 0 then n == 0
       else if e.taken == |lines| then n == e.taken + Min(s.capacity, |arg| - e.taken)
       else BestFit(arg[e.taken..], n - e.taken, s.capacity)
  }

  /** What a line-buffered `write_all` promises: once it succeeds, every completed line of
      everything ever written has reached the device, and only what follows the argument's
      last line can be buffered. */
  ghost predicate LineWroteAll(s: Out, arg: seq<byte>, r: Outcome<()>, s': Out) {
    && AckedAll(s, arg, r, s')
    && (!r.Panicked? ==> LineDiscipline(s'.buffered))
    && (r.Ok? ==>
          && CompletedLines(s'.Stream()) <= s'.received
          && s'.buffered == PlainlyBuffered(s, arg[|CompletedLines(arg)|..], NEWLINE in arg || NEWLINE in s.buffered))
  }

  /** What a line-buffered vectored write promises. A device without vectored writes is given
      the first non-empty slice. Otherwise the slices through the last one with a newline
      are offered in one call, and only if they are taken whole is as much of the others as
      fits retained. */
  ghost predicate LineWroteVectored(s: Out, slices: seq<seq<byte>>, vectored: bool, r: Outcome<nat>, s': Out) {
    && Acked(s, Concat(slices), r, s')
    && FreshWrites(s'.trace) <= FreshWrites(s.trace) + 1
    && (!r.Panicked? ==> LineDiscipline(s'.buffered))
    && if !vectored then
         if FirstFull(slices) == |slices| then r.Ok? && r.value == 0 && s' == s
         else LineWrote(s, slices[FirstFull(slices)], r, s')
       else if !r.Ok? then true
       else if LinesEnd(slices) == 0 then WrotePlain(s, Concat(slices), r.value, s')
       else WroteSlices(s, Concat(slices[..LinesEnd(slices)]), Concat(slices), r.value, s')
  }

  /** The slices with lines, `lines`, were offered in one call. When it took them whole, as much
      of the bytes after them, in `all`, as fits is retained; else nothing. */
  ghost predicate WroteSlices(s: Out, lines: seq<byte>, all: seq<byte>, n: nat, s': Out) {
    && s'.trace.Then?
    && var e := s'.trace.latest;
    && e.WriteEvent? && e.offered == lines && e.outcome.Ok? && e.origin.Fresh? && e.retained == []
    && e.taken <= n <= |all| && s'.buffered == all[e.taken..n]
    && n == e.taken + if e.taken == |lines| then Min(s.capacity, |all| - e.taken) else 0
  }

  /** The index of the first non-empty slice; the number of slices if there is none. */
  function FirstFull(slices: seq<seq<byte>>): (n: nat)
    ensures n <= |slices| && (n < |slices| ==> slices[n] != [])
    ensures forall i :: 0 <= i < n ==> slices[i] == []
  {
    if slices == [] || slices[0] != [] then 0 else 1 + FirstFull(slices[1..])
  }

  lemma {:induction false} FirstFullStarts(slices: seq<seq<byte>>)
    ensures var n := FirstFull(slices);
            if n == |slices| then Concat(slices) == [] else slices[n] <= Concat(slices)
  {
    if slices != [] && slices[0] == [] {
      FirstFullStarts(slices[1..]);
    }
  }

  /** How many slices there are through the last one that has a newline; 0 if none has. */
  function LinesEnd(slices: seq<seq<byte>>): (n: nat)
    ensures n <= |slices| && (n > 0 ==> NEWLINE in slices[n - 1])
    ensures NEWLINE !in Concat(slices[n..])
  {
    if slices == [] then 0
    else
      var rest := LinesEnd(slices[1..]);
      assert slices[1..][rest..] == slices[rest + 1..];
      if rest > 0 then rest + 1 else if NEWLINE in slices[0] then 1 else
      assert slices[0..] == slices;
      0
  }

  /** The flush that clears the way: it keeps the stream and the line discipline. */
  ghost predicate Cleared(s: Out, r: Outcome<()>, s': Out) {
    && Worked(s, r, s', true) && KeptStream(s, r, s') && FreshWrites(s'.trace) == FreshWrites(s.trace)
    && IsSuffix(s'.buffered, s.buffered) && LineDiscipline(s'.buffered)
  }

  lemma FlushClears(s: Out, r: Outcome<()>, s': Out)
    requires LineDiscipline(s.buffered) && Emptied(s, r, s')
    ensures Cleared(s, r, s')
  {
    SuffixKeepsDiscipline(s'.buffered, s.buffered);
  }

  /** A write that stops at the flush before it. */
  lemma ClearFailsWrite(s: Out, arg: seq<byte>, r: Outcome<()>, s': Out)
    requires Cleared(s, r, s') && !r.Ok?
    ensures LineWrote(s, arg, r.PropagateFailure(), s')
    ensures LineWroteAll(s, arg, r, s')
  {
    KeptFails(s, arg, r, s');
  }

  lemma ClearFailsVectored(s: Out, slices: seq<seq<byte>>, r: Outcome<()>, s': Out)
    requires Cleared(s, r, s') && !r.Ok?
    ensures LineWroteVectored(s, slices, true, r.PropagateFailure(), s')
  {
    KeptFails(s, Concat(slices), r, s');
  }

  /** What a plain write leaves buffered. */
  lemma PlainlyPlaced(s: Out, s1: Out, arg: seq<byte>, r: Outcome<nat>, s': Out)
    requires s1.capacity == s.capacity && NEWLINE !in arg
    requires if NEWLINE in s.buffered then s1.buffered == [] else s1 == s
    requires Placed(s1, arg, r, s')
    ensures r.Ok? ==> WrotePlain(s, arg, r.value, s')
    ensures r.Err? ==> NEWLINE !in s'.buffered
    ensures r.Err? && IsSuffix(s1.buffered, s.buffered) ==> IsSuffix(s'.buffered, s.buffered)
  {
    if r.Err? {
      SuffixWithoutNewline(s'.buffered, s1.buffered);
      if IsSuffix(s1.buffered, s.buffered) {
        SuffixOfSuffix(s'.buffered, s1.buffered, s.buffered);
      }
    }
  }

  /** A buffered write of bytes without a newline over bytes without a newline. */
  lemma PlainWriteIsLineWrite(s: Out, s1: Out, arg: seq<byte>, r: Outcome<nat>, s': Out)
    requires Cleared(s, Ok(()), s1) && NEWLINE !in arg
    requires if NEWLINE in s.buffered then s1.buffered == [] else s1 == s
    requires Acked(s1, arg, r, s') && Placed(s1, arg, r, s')
    ensures LineWrote(s, arg, r, s')
  {
    KeptThenAcked(s, s1, arg, r, s');
    PlainlyPlaced(s, s1, arg, r, s');
  }

  lemma PlainWriteIsVectored(s: Out, s1: Out, slices: seq<seq<byte>>, r: Outcome<nat>, s': Out)
    requires Cleared(s, Ok(()), s1) && LinesEnd(slices) == 0 && NEWLINE !in Concat(slices)
    requires if NEWLINE in s.buffered then s1.buffered == [] else s1 == s
    requires Acked(s1, Concat(slices), r, s') && Placed(s1, Concat(slices), r, s')
    ensures LineWroteVectored(s, slices, true, r, s')
  {
    PlainWriteIsLineWrite(s, s1, Concat(slices), r, s');
  }

  lemma PlainlyPlacedAll(s: Out, s1: Out, arg: seq<byte>, r: Outcome<()>, s': Out)
    requires s1.capacity == s.capacity && NEWLINE !in arg
    requires if NEWLINE in s.buffered then s1.buffered == [] else s1 == s
    requires PlacedAll(s1, arg, r, s')
    ensures r.Ok? ==> s'.buffered == PlainlyBuffered(s, arg, NEWLINE in s.buffered)
    ensures !r.Panicked? ==> NEWLINE !in s'.buffered
  {
    if r.Err? {
      SuffixWithoutNewline(s'.buffered, s1.buffered);
    }
  }

  lemma PlainWriteAllIsLineWrite(s: Out, s1: Out, arg: seq<byte>, r: Outcome<()>, s': Out)
    requires Worked(s, Ok(()), s1, true) && KeptStream(s, Ok(()), s1) && NEWLINE !in arg
    requires if NEWLINE in s.buffered then s1.buffered == [] else s1 == s
    requires AckedAll(s1, arg, r, s') && PlacedAll(s1, arg, r, s')
    ensures LineWroteAll(s, arg, r, s')
  {
    KeptThenAckedAll(s, s1, arg, r, s');
    PlainlyPlacedAll(s, s1, arg, r, s');
    CompletedLinesDelivered(s'.received, s'.buffered);
    assert CompletedLines(arg) == [] && arg[0..] == arg;
  }

  lemma SuffixWithoutNewline(a: seq<byte>, b: seq<byte>)
    requires IsSuffix(a, b) && NEWLINE !in b
    ensures NEWLINE !in a
  {
    assert forall i :: 0 <= i < |a| ==> a[i] == b[|b| - |a| + i];
  }

  /** The complete lines go out in one call, and the tail its answer calls for is retained. */
  lemma LinesThenTail(s: Out, s1: Out, arg: seq<byte>, w: Outcome<nat>, taken: nat, s2: Out, s': Out, n: nat,
                      r: Outcome<nat>)
    requires Cleared(s, Ok(()), s1) && NEWLINE in arg
    requires WroteFresh(s1, CompletedLines(arg), w, taken, false, s2)
    requires w.Ok? && taken > 0
    requires var tail := Tail(arg, taken, |CompletedLines(arg)|, s.capacity);
             n == Min(s.capacity, |tail|) && s' == s2.(buffered := tail[..n])
    requires r.Ok? && r.value == taken + n
    ensures LineWrote(s, arg, r, s')
  {
    var tail := Tail(arg, taken, |CompletedLines(arg)|, s.capacity);
    TailKeepsDiscipline(arg, taken, s.capacity);
    WroteFreshIntact(s1, CompletedLines(arg), w, taken, false, s2);
    assert CompletedLines(arg)[..taken] == arg[..taken];
    assert tail[..n] == arg[taken..taken + n];
    TailAcks(s1, arg, taken, s2, n, s', r);
    KeptThenAcked(s, s1, arg, r, s');
    LinesTailRetained(s, s1, arg, w, taken, s2, s', n, r.value);
  }

  lemma LinesTailRetained(s: Out, s1: Out, arg: seq<byte>, w: Outcome<nat>, taken: nat, s2: Out, s': Out, n: nat,
                          r: nat)
    requires s1.capacity == s.capacity && WroteFresh(s1, CompletedLines(arg), w, taken, false, s2) && w.Ok? && taken > 0
    requires var tail := Tail(arg, taken, |CompletedLines(arg)|, s.capacity);
             n == Min(s.capacity, |tail|) && s' == s2.(buffered := tail[..n])
    requires r == taken + n
    ensures WroteLines(s, arg, r, s')
  {
    var l := |CompletedLines(arg)|;
    var tail := Tail(arg, taken, l, s.capacity);
    assert tail[..n] == arg[taken..r];
    if taken < l {
      TailIsOptimal(arg, taken, s.capacity);
    } else {
      assert tail == arg[taken..];
    }
  }

  /** The call that offers the lines takes nothing, fails or panics. */
  lemma LinesRefused(s: Out, s1: Out, arg: seq<byte>, w: Outcome<nat>, taken: nat, s': Out)
    requires Cleared(s, Ok(()), s1) && NEWLINE in arg
    requires WroteFresh(s1, CompletedLines(arg), w, taken, false, s')
    requires if w.Ok? then w.value == 0 else w.Err? ==> taken == 0
    ensures LineWrote(s, arg, w, s')
  {
    DirectWriteAcks(s1, CompletedLines(arg), w, taken, false, s');
    AckedPart(s1, CompletedLines(arg), arg, w, s');
    KeptThenAcked(s, s1, arg, w, s');
  }

  lemma SlicesSplit(slices: seq<seq<byte>>, n: nat, lines: seq<byte>, tail: seq<byte>)
    requires n <= |slices| && lines == Concat(slices[..n]) && tail == Concat(slices[n..])
    ensures Concat(slices) == lines + tail
  {
    ConcatSplit(slices, n);
  }

  lemma LinesNotEmpty(slices: seq<seq<byte>>, n: nat)
    requires 0 < n <= |slices| && NEWLINE in slices[n - 1]
    ensures Concat(slices[..n]) != []
  {
    NewlineInConcat(slices[..n], NEWLINE);
    assert slices[..n][n - 1] == slices[n - 1];
  }

  lemma TailRetained(s: Out, s1: Out, lines: seq<byte>, tail: seq<byte>, w: Outcome<nat>, taken: nat, s2: Out,
                     s': Out, n: nat, r: nat)
    requires s1.capacity == s.capacity && WroteFresh(s1, lines, w, taken, false, s2) && w.Ok?
    requires if taken == |lines| then n == Min(s.capacity, |tail|) && s' == s2.(buffered := tail[..n])
             else n == 0 && s' == s2
    requires r == taken + n
    ensures WroteSlices(s, lines, lines + tail, r, s')
  {
    if taken == |lines| {
      JoinedAt(lines, tail, n);
    } else {
      assert (lines + tail)[taken..taken] == [];
    }
  }

  /** A vectored write of lines and of a tail without a newline. */
  ghost predicate WroteBoth(s: Out, lines: seq<byte>, tail: seq<byte>, r: Outcome<nat>, s': Out) {
    && Acked(s, lines + tail, r, s')
    && FreshWrites(s'.trace) <= FreshWrites(s.trace) + 1
    && (!r.Panicked? ==> NEWLINE !in s'.buffered)
    && (r.Ok? ==> WroteSlices(s, lines, lines + tail, r.value, s'))
  }

  /** The slices through the last one with a newline go out in one call and are taken whole;
      as much of the other slices as fits is retained. */
  lemma SlicesThenTail(s: Out, s1: Out, lines: seq<byte>, tail: seq<byte>, w: Outcome<nat>, taken: nat, s2: Out,
                       s': Out, n: nat, r: Outcome<nat>)
    requires Cleared(s, Ok(()), s1) && NEWLINE !in tail
    requires WroteFresh(s1, lines, w, taken, false, s2) && w.Ok? && taken == |lines|
    requires n == Min(s.capacity, |tail|) && s' == s2.(buffered := tail[..n]) && r.Ok? && r.value == taken + n
    ensures WroteBoth(s, lines, tail, r, s')
  {
    WroteFreshIntact(s1, lines, w, taken, false, s2);
    JoinedAt(lines, tail, n);
    assert lines[..taken] == lines;
    TailAcks(s1, lines + tail, taken, s2, n, s', r);
    KeptThenAcked(s, s1, lines + tail, r, s');
    TailRetained(s, s1, lines, tail, w, taken, s2, s', n, r.value);
  }

  /** The call that offers them fails, panics or takes less. */
  lemma SlicesRefused(s: Out, s1: Out, lines: seq<byte>, tail: seq<byte>, w: Outcome<nat>, taken: nat, s': Out)
    requires Cleared(s, Ok(()), s1)
    requires WroteFresh(s1, lines, w, taken, false, s') && (w.Err? ==> taken == 0) && (w.Ok? ==> w.value < |lines|)
    ensures WroteBoth(s, lines, tail, w, s')
  {
    DirectWriteAcks(s1, lines, w, taken, false, s');
    AckedPart(s1, lines, lines + tail, w, s');
    KeptThenAcked(s, s1, lines + tail, w, s');
    if w.Ok? {
      TailRetained(s, s1, lines, tail, w, taken, s', s', 0, w.value);
    }
  }

  /** What becomes of the slices after those offered: as much as fits is retained if these
      were taken whole, else nothing. */
  ghost predicate SlicesKept(lines: seq<byte>, tail: seq<byte>, w: Outcome<nat>, taken: nat, s2: Out, n: nat,
                             r: Outcome<nat>, s': Out)
  {
    if w.Ok? && taken > 0 && taken == |lines| then
      n == Min(s2.capacity, |tail|) && s' == s2.(buffered := tail[..n]) && r.Ok? && r.value == taken + n
    else r == w && s' == s2
  }

  lemma SlicesWritten(s: Out, s1: Out, slices: seq<seq<byte>>, lines: seq<byte>, tail: seq<byte>, w: Outcome<nat>,
                      taken: nat, s2: Out, n: nat, r: Outcome<nat>, s': Out)
    requires Cleared(s, Ok(()), s1) && LinesEnd(slices) > 0
    requires lines == Concat(slices[..LinesEnd(slices)]) && tail == Concat(slices[LinesEnd(slices)..])
    requires WroteFresh(s1, lines, w, taken, false, s2) && (w.Err? ==> taken == 0)
    requires SlicesKept(lines, tail, w, taken, s2, n, r, s')
    ensures LineWroteVectored(s, slices, true, r, s')
  {
    SlicesSplit(slices, LinesEnd(slices), lines, tail);
    LinesNotEmpty(slices, LinesEnd(slices));
    if w.Ok? && taken == |lines| {
      SlicesThenTail(s, s1, lines, tail, w, taken, s2, s', n, r);
    } else {
      SlicesRefused(s, s1, lines, tail, w, taken, s');
    }
  }

  /** A slice list is written by writing its first non-empty slice. */
  lemma FirstSliceWrite(s: Out, slices: seq<seq<byte>>, r: Outcome<nat>, s': Out)
    requires if FirstFull(slices) == |slices|
             then s.Valid() && LineDiscipline(s.buffered) && r.Ok? && r.value == 0 && s' == s
             else LineWrote(s, slices[FirstFull(slices)], r, s')
    ensures LineWroteVectored(s, slices, false, r, s')
  {
    FirstFullStarts(slices);
    if FirstFull(slices) == |slices| {
      RanNothing(s.trace, true);
      AddNothing(s.Stream());
    } else {
      AckedPart(s, slices[FirstFull(slices)], Concat(slices), r, s');
    }
  }

  /** Buffering one more slice: a slice taken only in part fills the buffer, so the next one
      is not taken at all. */
  lemma SliceBuffered(was: seq<byte>, before: seq<byte>, slice: seq<byte>, room: nat, buffered: nat, n: nat)
    requires buffered == Min(room, |before|) && n == Min(room - buffered, |slice|)
    ensures buffered + n == Min(room, |before + slice|)
    ensures was + before[..buffered] + slice[..n] == was + (before + slice)[..buffered + n]
    ensures n == 0 && slice != [] ==> buffered == room
  {
    Associate(was, before[..buffered], slice[..n]);
    if buffered < |before| {
      assert n == 0;
      assert (before + slice)[..buffered] == before[..buffered];
    } else {
      assert (before + slice)[..buffered + n] == before[..buffered] + slice[..n];
    }
  }

  /** What sending complete lines promises: they are out and nothing is buffered, or some
      prefix of them was accepted. */
  ghost predicate LinesOut(s: Out, lines: seq<byte>, r: Outcome<()>, s': Out) {
    && AckedAll(s, lines, r, s')
    && (!r.Panicked? ==> LineDiscipline(s'.buffered))
    && (r.Ok? ==> s'.buffered == [])
  }

  /** Which way complete lines go: past an empty buffer in one call; else through the buffer,
      with a call of their own only if they are no smaller than it. */
  ghost predicate LinesWay(s: Out, lines: seq<byte>, s': Out) {
    if s.buffered == [] then
      && s'.trace.Then? && s'.trace.earlier == s.trace
      && var e := s'.trace.latest;
      && e.WriteEvent? && e.offered == lines && e.origin.Fresh? && !e.armed
    else FreshWrites(s'.trace) <= FreshWrites(s.trace) + if |lines| < s.capacity then 0 else 1
  }

  lemma DirectLinesOut(s: Out, lines: seq<byte>, r: Outcome<()>, taken: nat, s': Out)
    requires s.Valid() && WroteFresh(s, lines, Counted(r, |lines|), taken, false, s')
    ensures LinesOut(s, lines, r, s') && LinesWay(s, lines, s')
  {
    DirectWriteAllAcks(s, lines, r, taken, false, s');
  }

  lemma BufferedLinesFail(s: Out, lines: seq<byte>, r: Outcome<()>, s': Out)
    requires s.Valid() && LineDiscipline(s.buffered) && !r.Ok?
    requires AckedAll(s, lines, r, s') && PlacedAll(s, lines, r, s')
    ensures LinesOut(s, lines, r, s') && (s.buffered != [] ==> LinesWay(s, lines, s'))
  {
    if r.Err? {
      SuffixKeepsDiscipline(s'.buffered, s.buffered);
    }
  }

  lemma BufferedLinesKeepDiscipline(s: Out, lines: seq<byte>, s': Out)
    requires lines != [] && lines[|lines| - 1] == NEWLINE
    requires PlacedAll(s, lines, Ok(()), s')
    ensures LineDiscipline(s'.buffered)
  {
  }

  lemma BufferedLinesOut(s: Out, s1: Out, lines: seq<byte>, r: Outcome<()>, s': Out)
    requires AckedAll(s, lines, Ok(()), s1) && Cleared(s1, r, s') && (r.Ok? ==> s'.buffered == [])
    requires PlacedAll(s, lines, Ok(()), s1)
    ensures LinesOut(s, lines, r, s') && (s.buffered != [] ==> LinesWay(s, lines, s'))
  {
    AllThenEmptied(s, lines, s1, r, s');
  }

  lemma LinesFail(s: Out, arg: seq<byte>, lines: seq<byte>, tail: seq<byte>, r: Outcome<()>, s': Out)
    requires LinesOut(s, lines, r, s') && !r.Ok? && arg == lines + tail
    ensures LineWroteAll(s, arg, r, s')
  {
    PartFails(s, lines, tail, r, s');
  }

  /** Complete lines sent out, then the partial line after them written. */
  lemma LinesThenRest(s: Out, f: Outcome<()>, s1: Out, arg: seq<byte>, lines: seq<byte>, tail: seq<byte>,
                      r: Outcome<()>, s': Out)
    requires LinesOut(s, lines, f, s1) && f.Ok?
    requires NEWLINE in arg && lines == CompletedLines(arg) && tail == arg[|lines|..]
    requires AckedAll(s1, tail, r, s') && PlacedAll(s1, tail, r, s')
    ensures LineWroteAll(s, arg, r, s')
  {
    assert arg == lines + tail;
    PartThenRest(s, lines, f, s1, tail, r, s');
    PlainlyPlacedAll(s1, s1, tail, r, s');
    if r.Ok? {
      assert s'.buffered == PlainlyBuffered(s, tail, true);
      CompletedLinesDelivered(s'.received, s'.buffered);
    }
  }
}
