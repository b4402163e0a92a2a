/** Readers fed through a bounded pipe: by a thread that copies a source, or, for a few bytes,
    by writing them all before anyone reads. */
module PipedReaders {
  import opened Bytes

  /** How the copying thread can fail: a broken pipe, another error of the source, or a panic
      in it, which its join reports. */
  datatype Failure = BrokenPipe | SourceError(code: int) | ThreadPanic

  /** The copying thread: absent, at work, or ended as its join will tell. */
  datatype Thread = NoThread | Running | Ended(failure: Option<Failure>)

  /** The reader: being opened (the bytes are written to the pipe inline), in use, told that
      the input has ended, being dropped (its end of the pipe is closed and it joins the
      thread), dropped, or panicked in its destructor. */
  datatype Reader = Opening | Using | AtEnd | Dropping | Dropped | DropPanicked

  /** `rest` is what the source has yet to give, `hand` what the thread has in hand, `got` what
      the reader has read; the writing end is open while the thread runs. */
  datatype System = System(capacity: nat, rest: seq<byte>, hand: seq<byte>, pipe: seq<byte>, got: seq<byte>,
                           thread: Thread, reader: Reader)

  datatype Event =
    | Put(k: nat)
    | Opened
    | Load(k: nat)
    | Store(k: nat)
    | Break
    | Finish
    | Fail(failure: Failure)
    | Read(k: nat)
    | ReadEnd
    | Drop
    | Join

  predicate ReadEndOpen(s: System) {
    s.reader.Opening? || s.reader.Using? || s.reader.AtEnd?
  }

  /** One step of the thread or the reader; None when it cannot be taken. */
  function Next(s: System, e: Event): Option<System> {
    match e
    case Put(k) =>
      if s.reader.Opening? && 0 < k <= |s.rest| && |s.pipe| + k <= s.capacity
      then Some(s.(pipe := s.pipe + s.rest[..k], rest := s.rest[k..])) else None
    case Opened => if s.reader.Opening? && s.rest == [] then Some(s.(reader := Using)) else None
    case Load(k) =>
      if s.thread.Running? && s.hand == [] && 0 < k <= |s.rest|
      then Some(s.(hand := s.rest[..k], rest := s.rest[k..])) else None
    case Store(k) =>
      if s.thread.Running? && ReadEndOpen(s) && 0 < k <= |s.hand| && |s.pipe| + k <= s.capacity
      then Some(s.(pipe := s.pipe + s.hand[..k], hand := s.hand[k..])) else None
    case Break =>
      if s.thread.Running? && s.hand != [] && !ReadEndOpen(s)
      then Some(s.(thread := Ended(Some(BrokenPipe)))) else None
    case Finish =>
      if s.thread.Running? && s.hand == [] && s.rest == [] then Some(s.(thread := Ended(None))) else None
    case Fail(failure) =>
      if s.thread.Running? && s.hand == [] then Some(s.(thread := Ended(Some(failure)))) else None
    case Read(k) =>
      if s.reader.Using? && 0 < k <= |s.pipe|
      then Some(s.(got := s.got + s.pipe[..k], pipe := s.pipe[k..])) else None
    case ReadEnd =>
      if s.reader.Using? && s.pipe == [] && !s.thread.Running? then Some(s.(reader := AtEnd)) else None
    case Drop => if s.reader.Using? || s.reader.AtEnd? then Some(s.(reader := Dropping)) else None
    case Join =>
      if !s.reader.Dropping? || s.thread.Running? then None
      else if s.thread.Ended? && s.thread.failure.Some? && s.thread.failure.value != BrokenPipe
      then Some(s.(reader := DropPanicked))
      else Some(s.(reader := Dropped))
  }

  function Exec(s: System, es: seq<Event>): Option<System>
    decreases |es|
  {
    if es == [] then Some(s)
    else
      match Next(s, es[0])
      case None => None
      case Some(s') => Exec(s', es[1..])
  }

  /** A reader over `bytes`: when they are no more than `pipeBuf` they are written to the new
      pipe inline, and then its writing end is closed; otherwise a thread copies them. */
  function Open(bytes: seq<byte>, capacity: nat, pipeBuf: nat): System {
    if |bytes| <= pipeBuf then System(capacity, bytes, [], [], [], NoThread, Opening)
    else System(capacity, bytes, [], [], [], Running, Using)
  }

  /** `bytes` are accounted for: read, in the pipe, in hand, or still to come, in order. A
      source that is not interrupted by a failure is exhausted when the thread has ended, and
      so are bytes that were written inline. */
  predicate Accounted(s: System, bytes: seq<byte>) {
    && s.got + s.pipe + s.hand + s.rest == bytes
    && |s.pipe| <= s.capacity && s.capacity >= 1
    && (s.reader.Opening? ==> s.thread.NoThread? && s.got == [] && s.hand == [] && |bytes| <= s.capacity)
    && ((s.thread.NoThread? && !s.reader.Opening?) || s.thread == Ended(None) ==> s.hand == [] && s.rest == [])
    && (s.reader.AtEnd? ==> s.pipe == [] && !s.thread.Running?)
  }

  predicate NoFailure(es: seq<Event>) {
    forall e :: e in es ==> !e.Fail?
  }

  lemma MoveOver(a: seq<byte>, b: seq<byte>, k: nat)
    requires k <= |b|
    ensures a + b[..k] + b[k..] == a + b
  {
  }

  lemma NextAccounted(s: System, e: Event, bytes: seq<byte>)
    requires Accounted(s, bytes) && Next(s, e).Some?
    ensures Accounted(Next(s, e).value, bytes)
    ensures !e.Fail? && ReadEndOpen(Next(s, e).value) && !FailedThread(s) ==> !FailedThread(Next(s, e).value)
  {
    match e
    case Put(k) =>
      MoveOver(s.got + s.pipe, s.rest, k);
      Associate(s.got, s.pipe, s.rest[..k]);
      AddNothing(s.got + s.pipe);
      AddNothing(s.got + (s.pipe + s.rest[..k]));
    case Load(k) =>
      MoveOver(s.got + s.pipe, s.rest, k);
      assert s.got + s.pipe + [] == s.got + s.pipe;
    case Store(k) =>
      MoveOver(s.got + s.pipe, s.hand, k);
      Associate(s.got, s.pipe, s.hand[..k]);
    case Read(k) => MoveOver(s.got, s.pipe, k);
    case _ =>
  }

  predicate FailedThread(s: System) {
    s.thread.Ended? && s.thread.failure.Some?
  }

  lemma {:induction false} ExecAccounted(s: System, es: seq<Event>, bytes: seq<byte>)
    requires Accounted(s, bytes) && Exec(s, es).Some?
    ensures Accounted(Exec(s, es).value, bytes)
    ensures NoFailure(es) && ReadEndOpen(Exec(s, es).value) && !FailedThread(s) ==> !FailedThread(Exec(s, es).value)
    decreases |es|
  {
    if es != [] {
      var s' := Next(s, es[0]).value;
      NextAccounted(s, es[0], bytes);
      ExecAccounted(s', es[1..], bytes);
      if ReadEndOpen(Exec(s, es).value) {
        ReadEndStaysClosed(s', es[1..]);
      }
      assert NoFailure(es) ==> NoFailure(es[1..]);
    }
  }

  lemma {:induction false} ReadEndStaysClosed(s: System, es: seq<Event>)
    requires Exec(s, es).Some? && ReadEndOpen(Exec(s, es).value)
    ensures ReadEndOpen(s)
    decreases |es|
  {
    if es != [] {
      ReadEndStaysClosed(Next(s, es[0]).value, es[1..]);
    }
  }

  /** For all bytes and any pipe that holds at least `pipeBuf`, on both paths and in every
      interleaving: a reader told that the input has ended has read exactly the bytes. */
  lemma BytesReadExactly(bytes: seq<byte>, capacity: nat, pipeBuf: nat, es: seq<Event>)
    requires capacity >= pipeBuf >= 1 && NoFailure(es)
    requires Exec(Open(bytes, capacity, pipeBuf), es).Some?
    requires Exec(Open(bytes, capacity, pipeBuf), es).value.reader.AtEnd?
    ensures Exec(Open(bytes, capacity, pipeBuf), es).value.got == bytes
  {
    assert [] + [] + [] + bytes == bytes;
    ExecAccounted(Open(bytes, capacity, pipeBuf), es, bytes);
    EndedHasAll(Exec(Open(bytes, capacity, pipeBuf), es).value, bytes);
  }

  lemma EndedHasAll(s: System, bytes: seq<byte>)
    requires Accounted(s, bytes) && s.reader.AtEnd? && !FailedThread(s)
    ensures s.got == bytes
  {
    assert s.got + [] + [] + [] == s.got;
  }

  /** The inline path never waits: whatever has been written by then, the rest of the bytes fits
      the pipe. */
  lemma InlineNeverWaits(bytes: seq<byte>, capacity: nat, pipeBuf: nat, es: seq<Event>)
    requires capacity >= pipeBuf >= 1 && Exec(Open(bytes, capacity, pipeBuf), es).Some?
    requires Exec(Open(bytes, capacity, pipeBuf), es).value.reader.Opening?
    ensures var s := Exec(Open(bytes, capacity, pipeBuf), es).value;
            Next(s, if s.rest == [] then Opened else Put(|s.rest|)).Some?
  {
    assert [] + [] + [] + bytes == bytes;
    ExecAccounted(Open(bytes, capacity, pipeBuf), es, bytes);
  }

  /** In every reachable state of a reader over bytes, which are always ready to be copied: a
      reader that is being opened, that keeps reading, or that is being dropped never waits
      for ever: it or the thread can take a step. */
  lemma SomeoneSteps(bytes: seq<byte>, capacity: nat, pipeBuf: nat, es: seq<Event>) returns (e: Event)
    requires capacity >= pipeBuf >= 1 && Exec(Open(bytes, capacity, pipeBuf), es).Some?
    requires var reader := Exec(Open(bytes, capacity, pipeBuf), es).value.reader;
             reader.Opening? || reader.Using? || reader.Dropping?
    ensures Next(Exec(Open(bytes, capacity, pipeBuf), es).value, e).Some? && !e.Drop? && !e.Fail?
  {
    assert [] + [] + [] + bytes == bytes;
    ExecAccounted(Open(bytes, capacity, pipeBuf), es, bytes);
    var s := Exec(Open(bytes, capacity, pipeBuf), es).value;
    if s.reader.Opening? {
      InlineNeverWaits(bytes, capacity, pipeBuf, es);
      e := if s.rest == [] then Opened else Put(|s.rest|);
    } else if s.reader.Dropping? {
      e := if !s.thread.Running? then Join
           else if s.hand != [] then Break else if s.rest != [] then Load(1) else Finish;
    } else if s.pipe != [] {
      e := Read(1);
    } else if s.thread.Running? {
      e := if s.hand != [] then Store(1) else if s.rest != [] then Load(1) else Finish;
    } else {
      e := ReadEnd;
    }
  }

  function Left(s: System): nat {
    3 * |s.rest| + 2 * |s.hand| + |s.pipe| + (if s.thread.Running? then 1 else 0)
    + (match s.reader case Opening => 4 case Using => 3 case AtEnd => 2 case Dropping => 1 case _ => 0)
  }

  /** Every step leaves less to do, so the end of the input, or of the drop, is reached. */
  lemma StepsRunOut(s: System, e: Event)
    requires Next(s, e).Some?
    ensures Left(Next(s, e).value) < Left(s)
  {
  }

  /** The source failed, or panicked, in a way that is not a broken pipe. */
  predicate SourceFails(es: seq<Event>) {
    exists k :: 0 <= k < |es| && IsFailure(es[k])
  }

  predicate IsFailure(e: Event) {
    e.Fail? && e.failure != BrokenPipe
  }

  lemma SourceFailsFirst(es: seq<Event>)
    requires es != []
    ensures SourceFails(es) <==> IsFailure(es[0]) || SourceFails(es[1..])
  {
    assert forall k :: 0 < k < |es| ==> es[k] == es[1..][k - 1];
  }

  predicate EndedBadly(s: System) {
    FailedThread(s) && s.thread.failure.value != BrokenPipe
  }

  /** A reader is dropped only after its thread has ended, and panics for a bad end. */
  predicate Judged(s: System) {
    && (s.reader.Dropped? ==> !s.thread.Running? && !EndedBadly(s))
    && (s.reader.DropPanicked? ==> EndedBadly(s))
  }

  lemma NextJudged(s: System, e: Event)
    requires Judged(s) && Next(s, e).Some?
    ensures Judged(Next(s, e).value) && (EndedBadly(Next(s, e).value) <==> EndedBadly(s) || IsFailure(e))
  {
  }

  lemma {:induction false} ExecJudged(s: System, es: seq<Event>)
    requires Judged(s) && Exec(s, es).Some?
    ensures Judged(Exec(s, es).value)
    ensures EndedBadly(Exec(s, es).value) <==> EndedBadly(s) || SourceFails(es)
    decreases |es|
  {
    if es != [] {
      NextJudged(s, es[0]);
      SourceFailsFirst(es);
      ExecJudged(Next(s, es[0]).value, es[1..]);
    }
  }

  /** Over every interleaving, once a reader has been dropped, however early: its destructor
      panicked if and only if the source failed or panicked, otherwise than with a broken pipe,
      before the thread ended. */
  lemma DropPanicsIff(s: System, es: seq<Event>)
    requires s.reader.Using? && !EndedBadly(s) && Exec(s, es).Some?
    requires Exec(s, es).value.reader.Dropped? || Exec(s, es).value.reader.DropPanicked?
    ensures Exec(s, es).value.reader.DropPanicked? <==> SourceFails(es)
  {
    ExecJudged(s, es);
  }

  /** Nothing but a full hand, a full pipe or an empty one holds back the thread and the reader,
      whatever the other is doing; and a source may fail at any read. */
  lemma StepsAreFree(s: System, k: nat, failure: Failure)
    requires s.thread.Running? && ReadEndOpen(s) && k > 0
    ensures s.hand == [] && k <= |s.rest| ==> Next(s, Load(k)).Some?
    ensures k <= |s.hand| && |s.pipe| + k <= s.capacity ==> Next(s, Store(k)).Some?
    ensures s.hand == [] ==> Next(s, Fail(failure)).Some?
    ensures s.reader.Using? && k <= |s.pipe| ==> Next(s, Read(k)).Some?
    ensures s.reader.Using? || s.reader.AtEnd? ==> Next(s, Drop).Some?
  {
  }

  lemma ExecFirst(s: System, e: Event, es: seq<Event>)
    requires Next(s, e).Some?
    ensures Exec(s, [e] + es) == Exec(Next(s, e).value, es)
  {
    assert ([e] + es)[1..] == es;
  }

  /** So a source that fails makes the destructor panic, and so does one that panics; a broken
      pipe does not. */
  lemma FailureReachesDrop(bytes: seq<byte>, capacity: nat, failure: Failure)
    ensures var es := [Fail(failure)] + ([Drop] + ([Join] + []));
            var s := Exec(System(capacity, bytes, [], [], [], Running, Using), es);
            s.Some? && s.value.reader == if failure.BrokenPipe? then Dropped else DropPanicked
  {
    var s := System(capacity, bytes, [], [], [], Running, Using);
    var s1 := s.(thread := Ended(Some(failure)));
    var s2 := s1.(reader := Dropping);
    ExecFirst(s2, Join, []);
    ExecFirst(s1, Drop, [Join] + []);
    ExecFirst(s, Fail(failure), [Drop] + ([Join] + []));
  }

  /** From every reachable state a reader that keeps reading can be told of the end, by steps that
      are neither failures nor a drop. */
  lemma EndIsReached(bytes: seq<byte>, capacity: nat, pipeBuf: nat, es: seq<Event>) returns (more: seq<Event>)
    requires capacity >= pipeBuf >= 1 && Exec(Open(bytes, capacity, pipeBuf), es).Some?
    requires !Closed(Exec(Open(bytes, capacity, pipeBuf), es).value)
    ensures NoFailure(more)
    ensures var end := Exec(Exec(Open(bytes, capacity, pipeBuf), es).value, more);
            end.Some? && end.value.reader.AtEnd?
    decreases Left(Exec(Open(bytes, capacity, pipeBuf), es).value)
  {
    var s := Exec(Open(bytes, capacity, pipeBuf), es).value;
    if s.reader.AtEnd? {
      more := [];
    } else {
      var e := SomeoneSteps(bytes, capacity, pipeBuf, es);
      StepsRunOut(s, e);
      ExecLast(Open(bytes, capacity, pipeBuf), es, e);
      var rest := EndIsReached(bytes, capacity, pipeBuf, es + [e]);
      more := [e] + rest;
      ExecFirst(s, e, rest);
    }
  }

  /** The reader has been, or is being, dropped. */
  predicate Closed(s: System) {
    !ReadEndOpen(s)
  }

  lemma {:induction false} ExecLast(s: System, es: seq<Event>, e: Event)
    requires Exec(s, es).Some? && Next(Exec(s, es).value, e).Some?
    ensures Exec(s, es + [e]) == Next(Exec(s, es).value, e)
    decreases |es|
  {
    var all := es + [e];
    if es == [] {
      assert all[1..] == [];
    } else {
      assert all[0] == es[0] && all[1..] == es[1..] + [e];
      ExecLast(Next(s, es[0]).value, es[1..], e);
    }
  }

  /** A reader can be dropped at any time once it is open, and its destructor returns or panics. */
  lemma DropEnds(bytes: seq<byte>, capacity: nat, pipeBuf: nat, es: seq<Event>) returns (more: seq<Event>)
    requires capacity >= pipeBuf >= 1 && Exec(Open(bytes, capacity, pipeBuf), es).Some?
    requires var reader := Exec(Open(bytes, capacity, pipeBuf), es).value.reader;
             reader.Using? || reader.AtEnd? || reader.Dropping?
    ensures var end := Exec(Exec(Open(bytes, capacity, pipeBuf), es).value, more);
            end.Some? && (end.value.reader.Dropped? || end.value.reader.DropPanicked?)
    decreases Left(Exec(Open(bytes, capacity, pipeBuf), es).value)
  {
    var s := Exec(Open(bytes, capacity, pipeBuf), es).value;
    var e := Drop;
    if s.reader.Dropping? {
      e := SomeoneSteps(bytes, capacity, pipeBuf, es);
    }
    StepsRunOut(s, e);
    var s' := Next(s, e).value;
    if s'.reader.Dropping? {
      ExecLast(Open(bytes, capacity, pipeBuf), es, e);
      var rest := DropEnds(bytes, capacity, pipeBuf, es + [e]);
      more := [e] + rest;
      ExecFirst(s, e, rest);
    } else {
      more := [e] + [];
      ExecFirst(s, e, []);
    }
  }

  /** No thread is started for bytes that are written inline, and no more than `pipeBuf` are. */
  lemma {:induction false} ThreadIffLong(s: System, es: seq<Event>)
    requires Exec(s, es).Some?
    ensures Exec(s, es).value.thread.NoThread? <==> s.thread.NoThread?
    decreases |es|
  {
    if es != [] {
      ThreadIffLong(Next(s, es[0]).value, es[1..]);
    }
  }

  lemma InlineIffShort(bytes: seq<byte>, capacity: nat, pipeBuf: nat, es: seq<Event>)
    requires Exec(Open(bytes, capacity, pipeBuf), es).Some?
    ensures Exec(Open(bytes, capacity, pipeBuf), es).value.thread.NoThread? <==> |bytes| <= pipeBuf
  {
    ThreadIffLong(Open(bytes, capacity, pipeBuf), es);
  }

  /** Over bytes, where the source cannot fail, no drop panics. */
  lemma BytesDropNeverPanics(bytes: seq<byte>, capacity: nat, pipeBuf: nat, es: seq<Event>)
    requires NoFailure(es) && Exec(Open(bytes, capacity, pipeBuf), es).Some?
    ensures !Exec(Open(bytes, capacity, pipeBuf), es).value.reader.DropPanicked?
  {
    ExecJudged(Open(bytes, capacity, pipeBuf), es);
    assert !SourceFails(es);
  }
}
