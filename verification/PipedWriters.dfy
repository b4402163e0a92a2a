/** Piped writers: each runs a thread that copies a bounded pipe into the writer below, which
    may itself be piped. Flushing closes the pipe, joins the thread and starts over. */
module PipedWriters {
  import opened Bytes

  /** A thread copies its pipe; at the end of it flushes the writer below; then it ends. */
  datatype Phase = Copying | Flushing | Finished

  /** A writer: the innermost sink, whose first `flushed` bytes have been flushed, or a pipe
      with its thread, which has `hand` in hand, in front of another writer. */
  datatype Writer =
    | Sink(data: seq<byte>, flushed: nat)
    | Piped(capacity: nat, open: bool, pipe: seq<byte>, hand: seq<byte>, phase: Phase, inner: Writer)

  /** What some thread does: takes `k` bytes from its pipe, gives `k` bytes to the writer
      below, finds its pipe at an end and calls flush below, sees that flush return, or
      leaves the move to a thread further down. */
  datatype Move = Take(k: nat) | Give(k: nat) | Close | Reopen | Deeper(move: Move)

  function Room(w: Writer): nat {
    match w
    case Sink(_, _) => 1
    case Piped(capacity, _, pipe, _, _, _) => if |pipe| < capacity then capacity - |pipe| else 0
  }

  predicate Takes(w: Writer, k: nat) {
    w.Sink? || k <= Room(w)
  }

  function Accept(w: Writer, bytes: seq<byte>): Writer {
    if w.Sink? then w.(data := w.data + bytes) else w.(pipe := w.pipe + bytes)
  }

  /** The first half of a flush: a sink is flushed, a pipe is closed. */
  function BeginFlush(w: Writer): Writer {
    if w.Sink? then w.(flushed := |w.data|) else w.(open := false)
  }

  /** The join of the thread returns. */
  predicate FlushDone(w: Writer) {
    w.Sink? || w.phase.Finished?
  }

  /** The second half of a flush: a new pipe with a new thread in front of the writer the old
      thread gave back. */
  function Restart(w: Writer): Writer {
    if w.Sink? then w else Piped(w.capacity, true, [], [], Copying, w.inner)
  }

  /** The effect of a move; None when no thread can make it. */
  function Do(w: Writer, m: Move): Option<Writer> {
    if w.Sink? then None
    else
      match m
      case Take(k) =>
        if w.phase.Copying? && w.hand == [] && 0 < k <= |w.pipe|
        then Some(w.(hand := w.pipe[..k], pipe := w.pipe[k..])) else None
      case Give(k) =>
        if w.phase.Copying? && 0 < k <= |w.hand| && Takes(w.inner, k)
        then Some(w.(hand := w.hand[k..], inner := Accept(w.inner, w.hand[..k]))) else None
      case Close =>
        if w.phase.Copying? && w.hand == [] && w.pipe == [] && !w.open
        then Some(w.(phase := Flushing, inner := BeginFlush(w.inner))) else None
      case Reopen =>
        if w.phase.Flushing? && FlushDone(w.inner)
        then Some(w.(phase := Finished, inner := Restart(w.inner))) else None
      case Deeper(move) =>
        match Do(w.inner, move)
        case None => None
        case Some(inner) => Some(w.(inner := inner))
  }

  /** Everything written, wherever it is by now. */
  function Contents(w: Writer): seq<byte> {
    match w
    case Sink(data, _) => data
    case Piped(_, _, pipe, hand, _, inner) => Contents(inner) + hand + pipe
  }

  function Innermost(w: Writer): (sink: Writer)
    ensures sink.Sink?
  {
    if w.Sink? then w else Innermost(w.inner)
  }

  /** Nothing is under way: every pipe is empty and open again, every hand empty, and the sink
      flushed to its end. */
  predicate Settled(w: Writer) {
    match w
    case Sink(data, flushed) => flushed == |data|
    case Piped(_, open, pipe, hand, phase, inner) =>
      open && pipe == [] && hand == [] && phase.Copying? && Settled(inner)
  }

  /** What the threads maintain; `closing` says that a flush of `w` has begun. */
  predicate Consistent(w: Writer, closing: bool) {
    match w
    case Sink(data, flushed) => flushed <= |data| && (closing ==> flushed == |data|)
    case Piped(capacity, open, pipe, hand, phase, inner) =>
      && capacity >= 1 && |pipe| <= capacity && open == !closing
      && (!phase.Copying? ==> closing && pipe == [] && hand == [])
      && Consistent(inner, phase.Flushing?)
      && (phase.Finished? ==> Settled(inner))
  }

  lemma {:induction false} SettledContents(w: Writer)
    requires Settled(w)
    ensures Innermost(w).data == Contents(w) && Innermost(w).flushed == |Innermost(w).data|
  {
    if w.Piped? {
      SettledContents(w.inner);
      assert Contents(w) == Contents(w.inner);
    }
  }

  lemma ConsistentBeginFlush(w: Writer)
    requires Consistent(w, false)
    ensures Consistent(BeginFlush(w), true) && Contents(BeginFlush(w)) == Contents(w)
  {
  }

  lemma ConsistentRestart(w: Writer)
    requires Consistent(w, true) && FlushDone(w)
    ensures Consistent(Restart(w), false) && Contents(Restart(w)) == Contents(w) && Settled(Restart(w))
  {
    if w.Piped? {
      assert Contents(w) == Contents(w.inner) + [] + [] == Contents(Restart(w));
    }
  }

  lemma ConsistentAccept(w: Writer, bytes: seq<byte>)
    requires Consistent(w, false) && Takes(w, |bytes|)
    ensures Consistent(Accept(w, bytes), false) && Contents(Accept(w, bytes)) == Contents(w) + bytes
  {
    if w.Piped? {
      assert Contents(w.inner) + w.hand + (w.pipe + bytes) == Contents(w.inner) + w.hand + w.pipe + bytes;
    }
  }

  /** No move of any thread loses, invents or reorders a byte, or breaks what the threads
      maintain. */
  lemma {:induction false} MoveKeeps(w: Writer, closing: bool, m: Move)
    requires Consistent(w, closing) && Do(w, m).Some?
    ensures Consistent(Do(w, m).value, closing) && Contents(Do(w, m).value) == Contents(w)
  {
    match m
    case Take(k) =>
      assert w.pipe == w.pipe[..k] + w.pipe[k..];
      assert Contents(w.inner) + w.pipe[..k] + w.pipe[k..] == Contents(w.inner) + [] + w.pipe;
    case Give(k) =>
      ConsistentAccept(w.inner, w.hand[..k]);
      assert Contents(w.inner) + w.hand[..k] + w.hand[k..] + w.pipe == Contents(w.inner) + w.hand + w.pipe by {
        assert w.hand == w.hand[..k] + w.hand[k..];
      }
    case Close => ConsistentBeginFlush(w.inner);
    case Reopen => ConsistentRestart(w.inner);
    case Deeper(move) =>
      if !w.phase.Finished? {
        MoveKeeps(w.inner, w.phase.Flushing?, move);
      } else {
        SettledRests(w.inner, move);
      }
  }

  /** Where nothing is under way no thread has a move. */
  lemma {:induction false} SettledRests(w: Writer, m: Move)
    requires Settled(w)
    ensures Do(w, m).None?
  {
    if w.Piped? && m.Deeper? {
      SettledRests(w.inner, m.move);
    }
  }

  function Depth(w: Writer): nat {
    if w.Sink? then 0 else 1 + Depth(w.inner)
  }

  /** `n` times `k`, by addition. */
  function Times(n: nat, k: nat): nat {
    if k == 0 then 0 else n + Times(n, k - 1)
  }

  lemma {:induction false} TimesSum(n: nat, j: nat, k: nat)
    ensures Times(n, j + k) == Times(n, j) + Times(n, k)
  {
    if k > 0 {
      TimesSum(n, j, k - 1);
    }
  }

  lemma {:induction false} TimesLess(m: nat, n: nat, k: nat)
    requires m < n && k > 0
    ensures Times(m, k) < Times(n, k)
  {
    if k > 1 {
      TimesLess(m, n, k - 1);
    }
  }

  /** How much work is left: every byte has to be taken and given at each level, every thread
      has to close, wait and end. */
  function Work(w: Writer): nat {
    match w
    case Sink(_, _) => 0
    case Piped(_, _, pipe, hand, phase, inner) =>
      var n := Depth(w);
      PhaseWork(n, phase) + ByteWork(n, |pipe|, |hand|) + Work(inner)
  }

  /** What the bytes in a pipe and in a hand count for. */
  function ByteWork(n: nat, pipe: nat, hand: nat): nat
    requires n > 0
  {
    Times(2 * n, pipe) + Times(2 * n - 1, hand)
  }

  /** What a thread's phase counts for. */
  function PhaseWork(n: nat, phase: Phase): nat {
    match phase case Copying => 2 * n case Flushing => if n == 0 then 0 else 2 * n - 1 case Finished => 0
  }

  lemma TakeWorks(w: Writer, k: nat)
    requires Do(w, Take(k)).Some?
    ensures Work(Do(w, Take(k)).value) < Work(w)
  {
    TimesSum(2 * Depth(w), k, |w.pipe| - k);
    TimesLess(2 * Depth(w) - 1, 2 * Depth(w), k);
  }

  /** What is in the pipe is counted byte by byte. */
  lemma PipeWorks(w: Writer, pipe: seq<byte>)
    requires w.Piped?
    ensures Depth(w.(pipe := pipe)) == Depth(w)
    ensures Work(w.(pipe := pipe)) - Times(2 * Depth(w), |pipe|) == Work(w) - Times(2 * Depth(w), |w.pipe|)
  {
    var w', n := w.(pipe := pipe), Depth(w);
    assert Depth(w') == n;
    assert Work(w') - Times(2 * n, |pipe|) == Work(w) - Times(2 * n, |w.pipe|);
  }

  lemma AcceptWorks(w: Writer, bytes: seq<byte>)
    ensures Depth(Accept(w, bytes)) == Depth(w)
    ensures Work(Accept(w, bytes)) == Work(w) + Times(2 * Depth(w), |bytes|)
  {
    if w.Piped? {
      PipeWorks(w, w.pipe + bytes);
      TimesSum(2 * Depth(w), |w.pipe|, |bytes|);
    } else {
      TimesNothing(|bytes|);
    }
  }

  lemma {:induction false} TimesNothing(k: nat)
    ensures Times(0, k) == 0
  {
    if k > 0 {
      TimesNothing(k - 1);
    }
  }

  /** Giving `k` bytes saves more than taking them below costs. */
  lemma LessInHand(n: nat, pipe: nat, hand: nat, k: nat)
    requires n > 0 && 0 < k <= hand
    ensures ByteWork(n, pipe, hand - k) + Times(2 * (n - 1), k) < ByteWork(n, pipe, hand)
  {
    TimesSum(2 * n - 1, k, hand - k);
    TimesLess(2 * n - 2, 2 * n - 1, k);
  }

  lemma GiveWorks(w: Writer, k: nat)
    requires Do(w, Give(k)).Some?
    ensures Work(Do(w, Give(k)).value) < Work(w) && Depth(Do(w, Give(k)).value) == Depth(w)
  {
    AcceptWorks(w.inner, w.hand[..k]);
    LessInHand(Depth(w), |w.pipe|, |w.hand|, k);
    var n, w' := Depth(w), Do(w, Give(k)).value;
    assert Depth(w') == n;
    assert Work(w') == PhaseWork(n, w.phase) + ByteWork(n, |w.pipe|, |w.hand| - k) + Work(w'.inner);
  }

  lemma CloseWorks(w: Writer)
    requires Do(w, Close).Some?
    ensures Work(Do(w, Close).value) < Work(w) && Depth(Do(w, Close).value) == Depth(w)
  {
    BeginFlushWorks(w.inner);
    PhaseWorks(w, w.open, Flushing, BeginFlush(w.inner));
  }

  lemma ReopenWorks(w: Writer)
    requires Do(w, Reopen).Some?
    ensures Work(Do(w, Reopen).value) < Work(w) && Depth(Do(w, Reopen).value) == Depth(w)
  {
    RestartWorks(w.inner);
    PhaseWorks(w, w.open, Finished, Restart(w.inner));
  }

  lemma BeginFlushWorks(w: Writer)
    ensures Work(BeginFlush(w)) == Work(w) && Depth(BeginFlush(w)) == Depth(w)
  {
    if w.Piped? {
      PhaseWorks(w, false, w.phase, w.inner);
    }
  }

  lemma RestartWorks(w: Writer)
    requires FlushDone(w)
    ensures Work(Restart(w)) <= Work(w) + 2 * Depth(w) && Depth(Restart(w)) == Depth(w)
  {
  }

  lemma PhaseWorks(w: Writer, open: bool, phase: Phase, inner: Writer)
    requires w.Piped? && Depth(inner) == Depth(w.inner)
    ensures var w' := w.(open := open, phase := phase, inner := inner);
            && Depth(w') == Depth(w)
            && Work(w') - PhaseWork(Depth(w), phase) - Work(inner) ==
               Work(w) - PhaseWork(Depth(w), w.phase) - Work(w.inner)
  {
    var w' := w.(open := open, phase := phase, inner := inner);
    assert Depth(w') == Depth(w);
  }

  /** Every move leaves less work. */
  lemma {:induction false} MoveWorks(w: Writer, m: Move)
    requires Do(w, m).Some?
    ensures Work(Do(w, m).value) < Work(w) && Depth(Do(w, m).value) == Depth(w)
  {
    match m
    case Take(k) => TakeWorks(w, k);
    case Give(k) => GiveWorks(w, k);
    case Close => CloseWorks(w);
    case Reopen => ReopenWorks(w);
    case Deeper(move) =>
      MoveWorks(w.inner, move);
      PhaseWorks(w, w.open, w.phase, Do(w.inner, move).value);
  }

  /** Nothing but an empty pipe, a full hand, or a lack of room below holds a thread back, at any
      depth, and nothing but a full pipe holds back the owner: whatever others are doing. */
  lemma MovesAreFree(w: Writer, k: nat)
    requires w.Piped? && w.phase.Copying? && k > 0
    ensures w.hand == [] && k <= |w.pipe| ==> Do(w, Take(k)).Some?
    ensures k <= |w.hand| && (w.inner.Piped? ==> |w.inner.pipe| + k <= w.inner.capacity) ==> Do(w, Give(k)).Some?
    ensures forall m :: Do(w.inner, m).Some? ==> Do(w, Deeper(m)).Some?
    ensures forall data :: k <= |data| && |w.pipe| + k <= w.capacity ==> Next(System(Writing(data), w), Push(k)).Some?
    ensures forall owner, m :: Do(w, m).Some? ==> Next(System(owner, w), Thread(m)).Some?
  {
  }

  /** A thread that has to wait for room below finds some thread below that can move. */
  lemma {:induction false} FullPipeDrains(w: Writer) returns (m: Move)
    requires Consistent(w, false) && Room(w) == 0
    ensures Do(w, m).Some?
    decreases w, 1
  {
    if w.hand == [] {
      m := Take(1);
    } else {
      m := HandMoves(w);
    }
  }

  lemma {:induction false} HandMoves(w: Writer) returns (m: Move)
    requires w.Piped? && w.phase.Copying? && w.hand != [] && Consistent(w.inner, false)
    ensures Do(w, m).Some?
    decreases w, 0
  {
    if Room(w.inner) >= 1 {
      m := Give(1);
    } else {
      var deeper := FullPipeDrains(w.inner);
      m := Deeper(deeper);
    }
  }

  /** While a flush has not come through, some thread can move: closing the pipe and joining
      the thread cannot deadlock, however deep the writers are nested. */
  lemma {:induction false} FlushGoesOn(w: Writer) returns (m: Move)
    requires Consistent(w, true) && !FlushDone(w)
    ensures Do(w, m).Some?
  {
    if w.phase.Flushing? {
      if FlushDone(w.inner) {
        m := Reopen;
      } else {
        var deeper := FlushGoesOn(w.inner);
        m := Deeper(deeper);
      }
    } else if w.hand != [] {
      m := HandMoves(w);
    } else if w.pipe != [] {
      m := Take(1);
    } else {
      m := Close;
    }
  }

  /** The threads' moves, in any interleaving. */
  function DoAll(w: Writer, ms: seq<Move>): Option<Writer>
    decreases |ms|
  {
    if ms == [] then Some(w)
    else
      match Do(w, ms[0])
      case None => None
      case Some(w') => DoAll(w', ms[1..])
  }

  /** However the threads are scheduled once a flush has begun: they stop within a bound fixed
      at its start, nothing is lost, and they stop only when the flush has come through. */
  lemma {:induction false} FlushComesThrough(w: Writer, ms: seq<Move>)
    requires Consistent(w, true) && DoAll(w, ms).Some?
    ensures var w' := DoAll(w, ms).value;
            && |ms| + Work(w') <= Work(w)
            && Consistent(w', true) && Contents(w') == Contents(w)
            && ((forall m :: Do(w', m).None?) ==> FlushDone(w'))
    decreases |ms|
  {
    if ms == [] {
      if !FlushDone(w) {
        var m := FlushGoesOn(w);
      }
    } else {
      MoveKeeps(w, true, ms[0]);
      MoveWorks(w, ms[0]);
      FlushComesThrough(Do(w, ms[0]).value, ms[1..]);
    }
  }

  /** The owner of the outermost writer. Dropping it closes its pipe and joins its thread, which
      gives back the writer below, and dropping that one goes on in the same way, down to the
      sink: `Joining(true)` is about the outermost writer that is left. */
  datatype Owner = Idle | Writing(rest: seq<byte>) | Joining(dropping: bool) | Gone

  datatype System = System(owner: Owner, writer: Writer)

  datatype Event =
    | StartWrite(data: seq<byte>)
    | Push(k: nat)
    | EndWrite
    | StartFlush
    | EndFlush
    | StartDrop
    | EndDrop
    | Thread(move: Move)

  /** The destructor of a writer starts: a sink is left alone, a pipe is closed. */
  function DropBegun(w: Writer): System {
    if w.Sink? then System(Gone, w) else System(Joining(true), w.(open := false))
  }

  /** One step of the owner or of a thread; None when it cannot be taken. */
  function Next(s: System, e: Event): Option<System> {
    match e
    case StartWrite(data) => if s.owner.Idle? then Some(s.(owner := Writing(data))) else None
    case Push(k) =>
      if s.owner.Writing? && 0 < k <= |s.owner.rest| && Takes(s.writer, k)
      then Some(System(Writing(s.owner.rest[k..]), Accept(s.writer, s.owner.rest[..k]))) else None
    case EndWrite => if s.owner == Writing([]) then Some(s.(owner := Idle)) else None
    case StartFlush => if s.owner.Idle? then Some(System(Joining(false), BeginFlush(s.writer))) else None
    case EndFlush =>
      if s.owner == Joining(false) && FlushDone(s.writer) then Some(System(Idle, Restart(s.writer))) else None
    case StartDrop => if s.owner.Idle? && s.writer.Piped? then Some(DropBegun(s.writer)) else None
    case EndDrop =>
      if s.owner == Joining(true) && s.writer.Piped? && s.writer.phase.Finished?
      then Some(DropBegun(s.writer.inner)) else None
    case Thread(move) =>
      match Do(s.writer, move)
      case None => None
      case Some(w) => Some(s.(writer := w))
  }

  function Exec(s: System, es: seq<Event>): Option<System>
    decreases |es|
  {
    if es == [] then Some(s)
    else
      match Next(s, es[0])
      case None => None
      case Some(s') => Exec(s', es[1..])
  }

  /** What the owner asked to have written, in order. */
  function Asked(es: seq<Event>): seq<byte> {
    if es == [] then [] else (if es[0].StartWrite? then es[0].data else []) + Asked(es[1..])
  }

  function Unwritten(owner: Owner): seq<byte> {
    if owner.Writing? then owner.rest else []
  }

  predicate Sound(s: System) {
    && Consistent(s.writer, s.owner.Joining? || s.owner.Gone?)
    && (s.owner.Gone? ==> s.writer.Sink?) && (s.owner == Joining(true) ==> s.writer.Piped?)
  }

  lemma NextKeeps(s: System, e: Event)
    requires Sound(s) && Next(s, e).Some?
    ensures var s' := Next(s, e).value;
            && Sound(s')
            && Contents(s'.writer) + Unwritten(s'.owner) ==
               Contents(s.writer) + Unwritten(s.owner) + (if e.StartWrite? then e.data else [])
  {
    match e
    case StartWrite(_) =>
    case Push(k) =>
      ConsistentAccept(s.writer, s.owner.rest[..k]);
      assert s.owner.rest == s.owner.rest[..k] + s.owner.rest[k..];
      Associate(Contents(s.writer), s.owner.rest[..k], s.owner.rest[k..]);
    case EndWrite =>
    case StartFlush => ConsistentBeginFlush(s.writer);
    case EndFlush => ConsistentRestart(s.writer);
    case StartDrop => ConsistentBeginFlush(s.writer);
    case EndDrop =>
      ConsistentBeginFlush(s.writer.inner);
      assert Contents(s.writer) == Contents(s.writer.inner) + [] + [] == Contents(s.writer.inner);
    case Thread(move) =>
      MoveKeeps(s.writer, s.owner.Joining? || s.owner.Gone?, move);
  }

  lemma {:induction false} ExecKeeps(s: System, es: seq<Event>)
    requires Sound(s) && Exec(s, es).Some?
    ensures var s' := Exec(s, es).value;
            && Sound(s')
            && Contents(s'.writer) + Unwritten(s'.owner) == Contents(s.writer) + Unwritten(s.owner) + Asked(es)
    decreases |es|
  {
    if es == [] {
      AddNothing(Contents(s.writer) + Unwritten(s.owner));
    } else {
      NextKeeps(s, es[0]);
      ExecKeeps(Next(s, es[0]).value, es[1..]);
      Associate(Contents(s.writer) + Unwritten(s.owner), if es[0].StartWrite? then es[0].data else [], Asked(es[1..]));
    }
  }

  lemma {:induction false} ExecAppend(s: System, es: seq<Event>, e: Event)
    requires Exec(s, es + [e]).Some?
    ensures Exec(s, es).Some? && Next(Exec(s, es).value, e) == Exec(s, es + [e])
    ensures Asked(es + [e]) == Asked(es) + (if e.StartWrite? then e.data else [])
    decreases |es|
  {
    var all := es + [e];
    if es == [] {
      assert all == [e] && all[1..] == [];
    } else {
      assert all[0] == es[0] && all[1..] == es[1..] + [e];
      ExecAppend(Next(s, es[0]).value, es[1..], e);
      Associate(if es[0].StartWrite? then es[0].data else [], Asked(es[1..]), if e.StartWrite? then e.data else []);
    }
  }

  /** A fresh writer of any depth over an empty sink. */
  predicate Fresh(w: Writer) {
    Settled(w) && Consistent(w, false) && Contents(w) == []
  }

  /** For any nesting depth, any number of writes and flushes and any interleaving of owner and
      threads: when an outer flush returns, the innermost sink holds exactly the bytes the
      owner asked to have written, in order and flushed, and every pipe is empty. */
  lemma FlushDelivers(w: Writer, es: seq<Event>)
    requires Fresh(w) && Exec(System(Idle, w), es + [EndFlush]).Some?
    ensures var s := Exec(System(Idle, w), es + [EndFlush]).value;
            && Innermost(s.writer).data == Asked(es) && Innermost(s.writer).flushed == |Asked(es)|
            && Settled(s.writer) && s.owner.Idle?
  {
    var s0 := System(Idle, w);
    ExecAppend(s0, es, EndFlush);
    ExecKeeps(s0, es);
    var s := Exec(s0, es).value;
    assert Contents(s.writer) + [] == [] + [] + Asked(es) == Asked(es);
    ConsistentRestart(s.writer);
    SettledContents(Next(s, EndFlush).value.writer);
  }

  /** The same once the writer has been dropped, and with it all writers below: what is left is
      the sink. */
  lemma DropDelivers(w: Writer, es: seq<Event>)
    requires Fresh(w) && Exec(System(Idle, w), es).Some? && Exec(System(Idle, w), es).value.owner.Gone?
    ensures Exec(System(Idle, w), es).value.writer == Sink(Asked(es), |Asked(es)|)
  {
    var s0 := System(Idle, w);
    ExecKeeps(s0, es);
    var s := Exec(s0, es).value;
    assert Contents(s.writer) + [] == [] + [] + Asked(es) == Asked(es);
  }

  /** What is left to do of a drop: the work of the threads, and a join for each writer. */
  function Remaining(s: System): nat {
    Work(s.writer) + Depth(s.writer)
  }

  lemma DropRunsOut(s: System, e: Event)
    requires Sound(s) && s.owner == Joining(true) && Next(s, e).Some?
    ensures var s' := Next(s, e).value;
            (s'.owner == Joining(true) || s'.owner.Gone?) && Remaining(s') < Remaining(s)
  {
    if e.Thread? {
      MoveWorks(s.writer, e.move);
    } else {
      assert e.EndDrop? && Next(s, e).value == DropBegun(s.writer.inner);
      InnerWorks(s.writer);
    }
  }

  lemma InnerWorks(w: Writer)
    requires w.Piped?
    ensures Work(w.inner) <= Work(w) && Depth(w.inner) < Depth(w)
    ensures Work(DropBegun(w.inner).writer) == Work(w.inner) && Depth(DropBegun(w.inner).writer) == Depth(w.inner)
  {
    if w.inner.Piped? {
      PhaseWorks(w.inner, false, w.inner.phase, w.inner.inner);
    }
  }

  lemma {:induction false} SinkRests(s: System, es: seq<Event>)
    requires s.owner.Gone? && s.writer.Sink? && Exec(s, es).Some?
    ensures es == []
  {
  }

  /** However the threads are scheduled once a drop has begun: it is over within a bound fixed
      at its start, and nothing stops before every writer below has been dropped too. */
  lemma {:induction false} DropComesThrough(s: System, es: seq<Event>)
    requires Sound(s) && s.owner == Joining(true) && Exec(s, es).Some?
    ensures var s' := Exec(s, es).value;
            && |es| + Remaining(s') <= Remaining(s)
            && (s'.owner.Gone? || exists e :: Next(s', e).Some?)
    decreases |es|
  {
    if es == [] {
      var e := JoinGoesOn(s);
    } else {
      var s1 := Next(s, es[0]).value;
      NextKeeps(s, es[0]);
      DropRunsOut(s, es[0]);
      if s1.owner.Gone? {
        SinkRests(s1, es[1..]);
      } else {
        DropComesThrough(s1, es[1..]);
      }
    }
  }

  /** What is left to do of a write: the work of the threads, and for each byte to be pushed more
      than the work it then makes. */
  function RemainingToWrite(s: System): nat
    requires s.owner.Writing?
  {
    Work(s.writer) + Times(2 * Depth(s.writer) + 1, |s.owner.rest|)
  }

  lemma WriteRunsOut(s: System, e: Event)
    requires s.owner.Writing? && (e.Push? || e.Thread?) && Next(s, e).Some?
    ensures Next(s, e).value.owner.Writing? && RemainingToWrite(Next(s, e).value) < RemainingToWrite(s)
  {
    var n := Depth(s.writer);
    if e.Thread? {
      MoveWorks(s.writer, e.move);
    } else {
      AcceptWorks(s.writer, s.owner.rest[..e.k]);
      TimesSum(2 * n + 1, e.k, |s.owner.rest| - e.k);
      TimesLess(2 * n, 2 * n + 1, e.k);
    }
  }

  /** However the threads are scheduled, a write is over within a bound fixed at its start, and
      stops only when all its bytes have been pushed. */
  lemma {:induction false} WriteComesThrough(s: System, es: seq<Event>)
    requires Sound(s) && s.owner.Writing? && Exec(s, es).Some?
    requires forall i :: 0 <= i < |es| ==> es[i].Push? || es[i].Thread?
    ensures var s' := Exec(s, es).value;
            && s'.owner.Writing? && |es| + RemainingToWrite(s') <= RemainingToWrite(s)
            && (s'.owner.rest == [] || exists e: Event :: (e.Push? || e.Thread?) && Next(s', e).Some?)
    decreases |es|
  {
    if es == [] {
      if s.owner.rest != [] {
        var e := PushGoesOn(s);
      }
    } else {
      NextKeeps(s, es[0]);
      WriteRunsOut(s, es[0]);
      WriteComesThrough(Next(s, es[0]).value, es[1..]);
    }
  }

  lemma PushGoesOn(s: System) returns (e: Event)
    requires Sound(s) && s.owner.Writing? && s.owner.rest != []
    ensures (e.Push? || e.Thread?) && Next(s, e).Some?
  {
    if Room(s.writer) >= 1 {
      e := Push(1);
    } else {
      var m := FullPipeDrains(s.writer);
      e := Thread(m);
    }
  }

  lemma JoinGoesOn(s: System) returns (e: Event)
    requires Sound(s) && s.owner.Joining?
    ensures Next(s, e).Some?
  {
    if FlushDone(s.writer) {
      e := if s.owner.dropping then EndDrop else EndFlush;
    } else {
      var m := FlushGoesOn(s.writer);
      e := Thread(m);
    }
  }

  lemma ExecFirst(s: System, e: Event, es: seq<Event>)
    requires Next(s, e).Some?
    ensures Exec(s, [e] + es) == Exec(Next(s, e).value, es)
  {
    assert ([e] + es)[1..] == es;
  }

  /** A flush that has begun can return: with the threads' moves alone, and then the join. */
  lemma {:induction false} JoinReturns(s: System) returns (es: seq<Event>)
    requires Sound(s) && s.owner == Joining(false)
    ensures (forall i :: 0 <= i < |es| ==> es[i].Thread?)
    ensures Exec(s, es + [EndFlush]).Some? && Exec(s, es + [EndFlush]).value.owner.Idle?
    decreases Work(s.writer)
  {
    if FlushDone(s.writer) {
      es := [];
      ExecFirst(s, EndFlush, []);
      assert es + [EndFlush] == [EndFlush] + [];
    } else {
      var m := FlushGoesOn(s.writer);
      NextKeeps(s, Thread(m));
      MoveWorks(s.writer, m);
      var rest := JoinReturns(Next(s, Thread(m)).value);
      es := [Thread(m)] + rest;
      ExecFirst(s, Thread(m), rest + [EndFlush]);
      assert es + [EndFlush] == [Thread(m)] + (rest + [EndFlush]);
    }
  }

  /** In every reachable state in which the owner is idle a flush can be made, and returns. */
  lemma FlushReturns(w: Writer, es: seq<Event>) returns (ms: seq<Event>)
    requires Fresh(w) && Exec(System(Idle, w), es).Some? && Exec(System(Idle, w), es).value.owner.Idle?
    ensures (forall i :: 0 <= i < |ms| ==> ms[i].Thread?)
    ensures var end := Exec(Exec(System(Idle, w), es).value, [StartFlush] + (ms + [EndFlush]));
            end.Some? && end.value.owner.Idle?
  {
    ExecKeeps(System(Idle, w), es);
    var s := Exec(System(Idle, w), es).value;
    NextKeeps(s, StartFlush);
    ms := JoinReturns(Next(s, StartFlush).value);
    ExecFirst(s, StartFlush, ms + [EndFlush]);
  }

  lemma {:induction false} DropEnds(s: System) returns (es: seq<Event>)
    requires Sound(s) && s.owner == Joining(true)
    ensures Exec(s, es).Some? && Exec(s, es).value.owner.Gone?
    decreases Remaining(s)
  {
    var e := JoinGoesOn(s);
    NextKeeps(s, e);
    DropRunsOut(s, e);
    var s' := Next(s, e).value;
    if s'.owner.Gone? {
      es := [e] + [];
      ExecFirst(s, e, []);
    } else {
      var rest := DropEnds(s');
      es := [e] + rest;
      ExecFirst(s, e, rest);
    }
  }

  /** And a piped writer can be dropped, down to the sink. */
  lemma DropReturns(w: Writer, es: seq<Event>) returns (ms: seq<Event>)
    requires Fresh(w) && w.Piped?
    requires Exec(System(Idle, w), es).Some? && Exec(System(Idle, w), es).value.owner.Idle?
    ensures var end := Exec(Exec(System(Idle, w), es).value, [StartDrop] + ms);
            end.Some? && end.value.owner.Gone?
  {
    ExecKeeps(System(Idle, w), es);
    var s := Exec(System(Idle, w), es).value;
    StaysPiped(System(Idle, w), es);
    NextKeeps(s, StartDrop);
    ms := DropEnds(Next(s, StartDrop).value);
    ExecFirst(s, StartDrop, ms);
  }

  /** Until it is dropped a piped writer stays one. */
  lemma {:induction false} StaysPiped(s: System, es: seq<Event>)
    requires s.writer.Piped? || s.owner.Gone?
    requires Exec(s, es).Some? && Exec(s, es).value.owner.Idle?
    ensures Exec(s, es).value.writer.Piped?
    decreases |es|
  {
    if es != [] {
      StaysPiped(Next(s, es[0]).value, es[1..]);
    }
  }

  lemma {:induction false} PushReturns(s: System) returns (es: seq<Event>)
    requires Sound(s) && s.owner.Writing?
    ensures (forall i :: 0 <= i < |es| ==> es[i].Push? || es[i].Thread?)
    ensures Exec(s, es + [EndWrite]).Some? && Exec(s, es + [EndWrite]).value.owner.Idle?
    decreases RemainingToWrite(s)
  {
    if s.owner.rest == [] {
      es := [];
      ExecFirst(s, EndWrite, []);
      assert es + [EndWrite] == [EndWrite] + [];
    } else {
      var e := PushGoesOn(s);
      NextKeeps(s, e);
      WriteRunsOut(s, e);
      var rest := PushReturns(Next(s, e).value);
      es := [e] + rest;
      ExecFirst(s, e, rest + [EndWrite]);
      assert es + [EndWrite] == [e] + (rest + [EndWrite]);
    }
  }

  /** And any bytes can be written. */
  lemma WriteReturns(w: Writer, es: seq<Event>, data: seq<byte>) returns (ms: seq<Event>)
    requires Fresh(w) && Exec(System(Idle, w), es).Some? && Exec(System(Idle, w), es).value.owner.Idle?
    ensures (forall i :: 0 <= i < |ms| ==> ms[i].Push? || ms[i].Thread?)
    ensures var end := Exec(Exec(System(Idle, w), es).value, [StartWrite(data)] + (ms + [EndWrite]));
            end.Some? && end.value.owner.Idle?
  {
    ExecKeeps(System(Idle, w), es);
    var s := Exec(System(Idle, w), es).value;
    NextKeeps(s, StartWrite(data));
    ms := PushReturns(Next(s, StartWrite(data)).value);
    ExecFirst(s, StartWrite(data), ms + [EndWrite]);
  }

  /** In every reachable state the owner, unless idle or gone, can go on or some thread can. */
  lemma SomeoneMoves(w: Writer, es: seq<Event>) returns (e: Event)
    requires Fresh(w) && Exec(System(Idle, w), es).Some?
    requires var owner := Exec(System(Idle, w), es).value.owner; owner.Writing? || owner.Joining?
    ensures Next(Exec(System(Idle, w), es).value, e).Some? && !e.StartWrite?
  {
    ExecKeeps(System(Idle, w), es);
    var s := Exec(System(Idle, w), es).value;
    if s.owner.Joining? {
      e := JoinGoesOn(s);
    } else if s.owner.rest == [] {
      e := EndWrite;
    } else {
      e := PushGoesOn(s);
    }
  }
}
