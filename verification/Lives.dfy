/** Whole lives of the public duplexers: any operations, then the destructor. */
module Lives {
  import opened Bytes
  import opened Devices
  import opened Outgoing
  import opened Runs
  import opened BufDuplexers
  import opened PublicBufDuplexers
  import opened LineWriters

  datatype Duplexer = Block(block: BufDuplexer) | Line(line: BufReaderLineWriter) {
    function Buffers(): BufDuplexerBackend {
      match this
      case Block(block) => block.inner
      case Line(line) => line.inner
    }

    function Buffering(): Mode {
      match this
      case Block(_) => BlockBuffered
      case Line(line) => LineBuffered(line.inner.inner.vectored)
    }
  }

  ghost function StateOf(b: BufDuplexerBackend): State
    requires b.Sound()
    reads b, b.inner, b.readerBuf
  {
    State(b.Output(), b.Input())
  }

  /** Between operations. */
  ghost predicate Ready(d: Duplexer)
    reads d.Buffers(), d.Buffers().inner
  {
    d.Buffers().Valid() && Kept(d.Buffering(), d.Buffers().Output())
  }

  /** Destination slices with the given room. */
  method Allocate(rooms: seq<nat>) returns (bufs: seq<array<byte>>)
    ensures fresh(bufs) && Distinct(bufs) && TotalLen(bufs) == TotalRoom(rooms)
    ensures |bufs| == |rooms| && forall i :: 0 <= i < |bufs| ==> bufs[i].Length == rooms[i]
  {
    if rooms == [] {
      return [];
    }
    var first := new byte[rooms[0]];
    var others := Allocate(rooms[1..]);
    bufs := [first] + others;
    assert bufs[1..] == others;
  }

  /** Carries out a write, a flush or an unwrapping. */
  method PerformOutgoing(d: Duplexer, op: Op) returns (reply: Reply)
    requires Ready(d)
    requires op.WriteOp? || op.WriteAllOp? || op.WriteVectoredOp? || op.FlushOp? || op.IntoInnerOp?
    modifies d.Buffers()`writerBuf, d.Buffers()`panicked, d.Buffers()`detached
    modifies d.Buffers().inner`trace, d.Buffers().inner`received, d.Buffers().inner`patience
    ensures d.Buffers().Sound() && d.Buffers().detached == MovesOut(op, reply) && !reply.Gave?
    ensures OutStep(op, d.Buffering(), old(d.Buffers().Output()), reply, d.Buffers().Output())
  {
    match op {
      case WriteOp(data) =>
        var r;
        match d {
          case Block(block) => r := block.Write(data);
          case Line(line) => r := line.Write(data);
        }
        reply := Count(r);
      case WriteAllOp(data) =>
        var r;
        match d {
          case Block(block) => r := block.WriteAll(data);
          case Line(line) => r := line.WriteAll(data);
        }
        reply := Done(r);
      case WriteVectoredOp(slices) =>
        var r;
        match d {
          case Block(block) => r := block.WriteVectored(slices);
          case Line(line) => r := line.WriteVectored(slices);
        }
        reply := Count(r);
      case FlushOp =>
        var r;
        match d {
          case Block(block) => r := block.Flush();
          case Line(line) => r := line.Flush();
        }
        reply := Done(r);
      case IntoInnerOp =>
        var r;
        match d {
          case Block(block) => r := block.IntoInner();
          case Line(line) => r := line.IntoInner();
        }
        reply := Done(Unit(r));
    }
  }

  lemma ShownThere(got: seq<byte>, before: seq<byte>, after: seq<byte>)
    requires Overwritten(got, before, |got|, after)
    ensures after[..|got|] == got
  {
  }

  /** Reads into fresh memory; the reply has the bytes found there. */
  method PerformRead(d: Duplexer, room: nat) returns (reply: Reply)
    requires Ready(d)
    modifies d.Buffers()`writerBuf, d.Buffers()`panicked, d.Buffers()`pos, d.Buffers()`cap, d.Buffers().readerBuf
    modifies d.Buffers().inner`trace, d.Buffers().inner`received, d.Buffers().inner`patience, d.Buffers().inner`input
    ensures d.Buffers().Intact()
    ensures Step(ReadOp(room), d.Buffering(), old(StateOf(d.Buffers())), reply, StateOf(d.Buffers()))
  {
    ghost var s := d.Buffers().Output();
    var buf := new byte[room];
    ghost var there := buf[..];
    var r;
    ghost var got, f, mid;
    match d {
      case Block(block) => r, got, f, mid := block.Read(buf);
      case Line(line) => r, got, f, mid := line.Read(buf);
    }
    ShownThere(got, there, buf[..]);
    reply := Gave(if r.Ok? then buf[..][..r.value] else [], Unit(r));
    FlushThenRead(s, f, mid, Unit(r), d.Buffers().Output());
  }

  method PerformReadVectored(d: Duplexer, rooms: seq<nat>) returns (reply: Reply)
    requires Ready(d)
    modifies d.Buffers()`writerBuf, d.Buffers()`panicked, d.Buffers()`pos, d.Buffers()`cap, d.Buffers().readerBuf
    modifies d.Buffers().inner`trace, d.Buffers().inner`received, d.Buffers().inner`patience, d.Buffers().inner`input
    ensures d.Buffers().Intact()
    ensures Step(ReadVectoredOp(rooms), d.Buffering(), old(StateOf(d.Buffers())), reply, StateOf(d.Buffers()))
  {
    ghost var s := d.Buffers().Output();
    var bufs := Allocate(rooms);
    ghost var there := Gather(bufs);
    var r;
    ghost var got, f, mid;
    match d {
      case Block(block) => r, got, f, mid := block.ReadVectored(bufs);
      case Line(line) => r, got, f, mid := line.ReadVectored(bufs);
    }
    var all := Joined(bufs);
    ShownThere(got, there, all);
    reply := Gave(if r.Ok? then all[..r.value] else [], Unit(r));
    FlushThenRead(s, f, mid, Unit(r), d.Buffers().Output());
  }

  /** The contents of slices, end to end. */
  method Joined(bufs: seq<array<byte>>) returns (all: seq<byte>)
    ensures all == Gather(bufs)
  {
    if bufs == [] {
      return [];
    }
    var rest := Joined(bufs[1..]);
    all := bufs[0][..] + rest;
  }

  method PerformReadUntil(d: Duplexer, delim: byte) returns (reply: Reply)
    requires Ready(d)
    modifies d.Buffers()`writerBuf, d.Buffers()`panicked, d.Buffers()`pos, d.Buffers()`cap, d.Buffers().readerBuf
    modifies d.Buffers().inner`trace, d.Buffers().inner`received, d.Buffers().inner`patience, d.Buffers().inner`input
    ensures d.Buffers().Intact()
    ensures Step(ReadUntilOp(delim), d.Buffering(), old(StateOf(d.Buffers())), reply, StateOf(d.Buffers()))
  {
    ghost var s := d.Buffers().Output();
    var r, out;
    ghost var got, f, mid;
    match d {
      case Block(block) => r, out, got, f, mid := block.ReadUntil(delim, []);
      case Line(line) => r, out, got, f, mid := line.ReadUntil(delim, []);
    }
    assert out == got;
    reply := Gave(out, Unit(r));
    FlushThenRead(s, f, mid, Unit(r), d.Buffers().Output());
  }

  /** Fills the reader buffer, or takes from it what a caller was shown. */
  method PerformBuffered(d: Duplexer, op: Op) returns (reply: Reply)
    requires Ready(d) && (op.FillBufOp? || op.ConsumeOp?)
    modifies d.Buffers()`pos, d.Buffers()`cap, d.Buffers().readerBuf
    modifies d.Buffers().inner`trace, d.Buffers().inner`received, d.Buffers().inner`patience, d.Buffers().inner`input
    ensures d.Buffers().Intact()
    ensures Step(op, d.Buffering(), old(StateOf(d.Buffers())), reply, StateOf(d.Buffers()))
  {
    var b := d.Buffers();
    if op.FillBufOp? {
      var r;
      match d {
        case Block(block) => r := block.FillBuf();
        case Line(line) => r := line.FillBuf();
      }
      reply := Shown(r);
    } else {
      var shown := b.readerBuf[b.pos..b.cap];
      ghost var given;
      match d {
        case Block(block) => given := block.Consume(op.amount);
        case Line(line) => given := line.Consume(op.amount);
      }
      reply := Gave(shown[..Min(op.amount, |shown|)], Ok(()));
    }
  }

  /** Carries out one operation. */
  method Perform(d: Duplexer, op: Op) returns (reply: Reply)
    requires Ready(d)
    modifies d.Buffers()`writerBuf, d.Buffers()`panicked, d.Buffers()`detached
    modifies d.Buffers()`pos, d.Buffers()`cap, d.Buffers().readerBuf
    modifies d.Buffers().inner`trace, d.Buffers().inner`received, d.Buffers().inner`patience, d.Buffers().inner`input
    ensures d.Buffers().Sound() && d.Buffers().detached == MovesOut(op, reply)
    ensures Step(op, d.Buffering(), old(StateOf(d.Buffers())), reply, StateOf(d.Buffers()))
  {
    match op {
      case ReadOp(room) => reply := PerformRead(d, room);
      case ReadVectoredOp(rooms) => reply := PerformReadVectored(d, rooms);
      case ReadUntilOp(delim) => reply := PerformReadUntil(d, delim);
      case FillBufOp => reply := PerformBuffered(d, op);
      case ConsumeOp(_) => reply := PerformBuffered(d, op);
      case _ => reply := PerformOutgoing(d, op);
    }
  }

  /** How far a list of operations got: all of it, or up to one more step that ended the run, whose
      reply is `last`. */
  ghost predicate Stopped(mode: Mode, states: seq<State>, ops: seq<Op>, replies: seq<Reply>, last: Reply, s: State) {
    && |replies| <= |ops|
    && Run(mode, states, ops[..|replies|], replies)
    && if |replies| == |ops| then s == states[|ops|]
       else EndsRun(ops[|replies|], last) && Steps(mode, [states[|replies|], s], [ops[|replies|]], [last])
  }

  /** Whether the device was moved out by the operation that ended the run. */
  predicate MovedOut(ops: seq<Op>, replies: seq<Reply>, last: Reply) {
    |replies| < |ops| && MovesOut(ops[|replies|], last)
  }

  /** Carries out operations in order until they are done or one ends the run. */
  method PerformAll(d: Duplexer, ops: seq<Op>)
    returns (replies: seq<Reply>, last: Reply, ghost states: seq<State>)
    requires Ready(d)
    modifies d.Buffers()`writerBuf, d.Buffers()`panicked, d.Buffers()`detached
    modifies d.Buffers()`pos, d.Buffers()`cap, d.Buffers().readerBuf
    modifies d.Buffers().inner`trace, d.Buffers().inner`received, d.Buffers().inner`patience, d.Buffers().inner`input
    ensures d.Buffers().Sound() && d.Buffers().detached == MovedOut(ops, replies, last)
    ensures Stopped(d.Buffering(), states, ops, replies, last, StateOf(d.Buffers()))
    ensures states[0] == old(StateOf(d.Buffers()))
  {
    var b := d.Buffers();
    replies, last, states := [], Done(Ok(())), [StateOf(b)];
    while |replies| < |ops|
      invariant Ready(d) && |replies| <= |ops|
      invariant Run(d.Buffering(), states, ops[..|replies|], replies)
      invariant states[0] == old(StateOf(b)) && states[|replies|] == StateOf(b)
    {
      var op := ops[|replies|];
      ghost var s := StateOf(b);
      var reply := Perform(d, op);
      if EndsRun(op, reply) {
        OneStep(op, d.Buffering(), s, reply, StateOf(b));
        last := reply;
        return;
      }
      ghost var ack := StepKeeps(op, d.Buffering(), s.out, reply, b.Output());
      RunGrows(d.Buffering(), states, ops[..|replies|], replies, op, reply, StateOf(b));
      assert ops[..|replies| + 1] == ops[..|replies|] + [op];
      replies, states := replies + [reply], states + [StateOf(b)];
    }
  }

  /** What holds of a life. `atDrop` is the state when the destructor starts, `after` the
      outgoing half when it is over, `flush` the end of the destructor's flush if it made one.

      Without a panic the device holds everything acknowledged, unless the last flush fails;
      and so it does when it was moved out. After a panic the destructor makes no call and
      the device holds a part of what was acknowledged followed by the argument of the call
      that panicked; only after a panic in a read made to fill the reader buffer does the
      destructor flush. */
  ghost predicate Lived(mode: Mode, states: seq<State>, ops: seq<Op>, replies: seq<Reply>, last: Reply,
                        acks: seq<seq<byte>>, atDrop: State, flush: Outcome<()>, after: Out)
  {
    && Stopped(mode, states, ops, replies, last, atDrop)
    && |acks| == |replies| && (forall i :: 0 <= i < |replies| ==> Acknowledged(ops[i], replies[i], acks[i]))
    && var all, n := states[0].out.Stream() + Concat(acks), |replies|;
    && if n == |ops| || (!MovesOut(ops[n], last) && ops[n].FillBufOp?) then
         && atDrop.out.Stream() == all
         && Flushed(atDrop.out, flush, after) && Emptied(atDrop.out, flush, after)
         && (flush.Ok? ==> after.received == all)
       else
         && after == atDrop.out
         && if MovesOut(ops[n], last) then after.received == all
            else atDrop.out.Poisoned() && after.received <= all + Argument(ops[n])
  }

  /** The bytes handed out over a life, in order, followed by what remains are the input. */
  ghost predicate HandedOut(states: seq<State>, ops: seq<Op>, replies: seq<Reply>, last: Reply, end: State)
    requires states != []
  {
    var given := if |replies| < |ops| then AllGiven(replies) + Given(last) else AllGiven(replies);
    states[0].incoming.Stream() == given + end.incoming.Stream()
  }

  /** How a life goes: given what the destructor does when something is or is not left to
      send, what the whole life comes to. */
  lemma LifeConserves(mode: Mode, states: seq<State>, ops: seq<Op>, replies: seq<Reply>, last: Reply, atDrop: State,
                      flush: Outcome<()>, after: Out)
    returns (acks: seq<seq<byte>>)
    requires Stopped(mode, states, ops, replies, last, atDrop) && Kept(mode, states[0].out)
    requires MovedOut(ops, replies, last) || atDrop.out.Poisoned() ==> after == atDrop.out
    requires !MovedOut(ops, replies, last) && !atDrop.out.panicked ==>
               Flushed(atDrop.out, flush, after) && Emptied(atDrop.out, flush, after)
    ensures Lived(mode, states, ops, replies, last, acks, atDrop, flush, after)
    ensures HandedOut(states, ops, replies, last, atDrop)
    ensures Extends(after.trace, states[0].out.trace)
  {
    var n := |replies|;
    acks := RunConserves(mode, states, ops[..n], replies);
    RunHandsOut(states, ops[..n], replies);
    if n < |ops| {
      OneStep(ops[n], mode, states[n], last, atDrop);
      LastOperation(ops[n], mode, states[n], last, atDrop);
      Associate(AllGiven(replies), Given(last), atDrop.incoming.Stream());
      ExtendsTransitive(atDrop.out.trace, states[n].out.trace, states[0].out.trace);
    }
    ExtendsTransitive(after.trace, atDrop.out.trace, states[0].out.trace);
  }

  lemma LastOperation(op: Op, mode: Mode, s: State, reply: Reply, s': State)
    requires s.out.Valid() && Step(op, mode, s, reply, s') && EndsRun(op, reply)
    ensures s.incoming.Stream() == Given(reply) + s'.incoming.Stream()
    ensures Extends(s'.out.trace, s.out.trace)
    ensures if MovesOut(op, reply) then s'.out.received == s.out.Stream()
            else if op.FillBufOp? then s'.out.Valid() && s'.out.Stream() == s.out.Stream()
            else s'.out.Poisoned() && s'.out.received <= s.out.Stream() + Argument(op)
  {
    StepHandsOut(op, s.incoming, reply, s'.incoming);
    StepExtends(op, mode, s.out, reply, s'.out);
    if Panics(reply) {
      PanicEndsRun(op, mode, s.out, reply, s'.out);
    }
  }

  /** A whole life: operations until they are done or one ends the run, then the destructor. */
  method PerformThenDrop(d: Duplexer, ops: seq<Op>)
    returns (replies: seq<Reply>, last: Reply, ghost states: seq<State>, ghost acks: seq<seq<byte>>,
             ghost atDrop: State, ghost flush: Outcome<()>)
    requires Ready(d)
    modifies d.Buffers()`writerBuf, d.Buffers()`panicked, d.Buffers()`detached
    modifies d.Buffers()`pos, d.Buffers()`cap, d.Buffers().readerBuf
    modifies d.Buffers().inner`trace, d.Buffers().inner`received, d.Buffers().inner`patience, d.Buffers().inner`input
    ensures |states| > 0 && states[0] == old(StateOf(d.Buffers()))
    ensures Lived(d.Buffering(), states, ops, replies, last, acks, atDrop, flush, d.Buffers().Output())
    ensures HandedOut(states, ops, replies, last, atDrop)
    ensures d.Buffers().Sound() && d.Buffers().Input() == atDrop.incoming
    ensures old(d.Buffers().inner.received) <= d.Buffers().inner.received
  {
    replies, last, states := PerformAll(d, ops);
    acks, atDrop, flush := DropAfter(d, states, ops, replies, last);
    DeliveredGrows(d.Buffers().inner.trace, old(d.Buffers().inner.trace));
  }

  /** The end of a life. */
  method DropAfter(d: Duplexer, ghost states: seq<State>, ghost ops: seq<Op>, ghost replies: seq<Reply>,
                   ghost last: Reply)
    returns (ghost acks: seq<seq<byte>>, ghost atDrop: State, ghost flush: Outcome<()>)
    requires d.Buffers().Sound() && d.Buffers().detached == MovedOut(ops, replies, last)
    requires Stopped(d.Buffering(), states, ops, replies, last, StateOf(d.Buffers()))
    requires Kept(d.Buffering(), states[0].out)
    modifies d.Buffers()`writerBuf, d.Buffers()`panicked
    modifies d.Buffers().inner`trace, d.Buffers().inner`received, d.Buffers().inner`patience
    ensures Lived(d.Buffering(), states, ops, replies, last, acks, atDrop, flush, d.Buffers().Output())
    ensures HandedOut(states, ops, replies, last, atDrop)
    ensures d.Buffers().Sound() && d.Buffers().Input() == atDrop.incoming
    ensures Extends(d.Buffers().inner.trace, states[0].out.trace)
  {
    var b := d.Buffers();
    atDrop := StateOf(b);
    flush := b.Drop();
    acks := LifeConserves(d.Buffering(), states, ops, replies, last, atDrop, flush, b.Output());
  }
}
