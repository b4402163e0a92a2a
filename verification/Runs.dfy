/** Whole runs of operations on the buffers. */
module Runs {
  import opened Bytes
  import opened Devices
  import opened Outgoing
  import opened Incoming
  import opened LineRules

  datatype Op =
    | WriteOp(data: seq<byte>)
    | WriteAllOp(data: seq<byte>)
    | WriteVectoredOp(slices: seq<seq<byte>>)
    | FlushOp
    | ReadOp(room: nat)
    | ReadVectoredOp(rooms: seq<nat>)
    | ReadUntilOp(delim: byte)
    | FillBufOp
    | ConsumeOp(amount: nat)
    | IntoInnerOp

  /** What a caller learns from an operation: a count, a success, the bytes it was handed, or
      the bytes it was shown. A read through a delimiter may hand out bytes and then fail. */
  datatype Reply =
    | Count(count: Outcome<nat>)
    | Done(done: Outcome<()>)
    | Gave(given: seq<byte>, end: Outcome<()>)
    | Shown(view: Outcome<seq<byte>>)

  /** Block-buffered as `BufDuplexer`, or line-buffered over a device with or without vectored
      writes. */
  datatype Mode = BlockBuffered | LineBuffered(vectored: bool)

  /** Both halves of the buffers. */
  datatype State = State(out: Out, incoming: In)

  function Given(reply: Reply): seq<byte> {
    if reply.Gave? then reply.given else []
  }

  /** The bytes handed out by all replies, in order. */
  function AllGiven(replies: seq<Reply>): seq<byte> {
    if replies == [] then [] else AllGiven(replies[..|replies| - 1]) + Given(replies[|replies| - 1])
  }

  predicate Panics(reply: Reply) {
    match reply
    case Count(count) => count.Panicked?
    case Done(done) => done.Panicked?
    case Gave(_, end) => end.Panicked?
    case Shown(view) => view.Panicked?
  }

  predicate Succeeds(reply: Reply) {
    match reply
    case Count(count) => count.Ok?
    case Done(done) => done.Ok?
    case Gave(_, end) => end.Ok?
    case Shown(view) => view.Ok?
  }

  /** The device has been moved out. */
  predicate MovesOut(op: Op, reply: Reply) {
    op.IntoInnerOp? && Succeeds(reply)
  }

  predicate EndsRun(op: Op, reply: Reply) {
    Panics(reply) || MovesOut(op, reply)
  }

  function TotalRoom(rooms: seq<nat>): nat {
    if rooms == [] then 0 else rooms[0] + TotalRoom(rooms[1..])
  }

  /** A flush that ended as `f`, then, only if it succeeded, reading that ended as `end`; `mid` is
      the outgoing half in between. */
  ghost predicate Behind(s: Out, f: Outcome<()>, mid: Out, end: Outcome<()>, s': Out) {
    FlushedThrough(s, f, mid) && if f.Ok? then ReadAs(mid, end, s', true) else s' == mid && end == f
  }

  /** A read behind a flush: it reaches the device, or hands out buffered input, only once
      everything accepted has been delivered and flushed. */
  ghost predicate ReadBehind(s: Out, end: Outcome<()>, s': Out) {
    Worked(s, end, s', false) && NothingNew(s, end, s') && (end.Ok? ==> Quiet(s'.trace))
  }

  lemma FlushThenRead(s: Out, f: Outcome<()>, mid: Out, end: Outcome<()>, s': Out)
    requires s.Valid() && Behind(s, f, mid, end, s') && s'.Intact()
    ensures ReadBehind(s, end, s')
  {
    if f.Ok? {
      ReadsKeep(s'.trace, mid.trace);
      ReadsGatedTransitive(s'.trace, mid.trace, s.trace);
      RanTransitive(s'.trace, mid.trace, s.trace, end, false);
    }
  }

  /** What one public operation may do to the outgoing half. */
  ghost predicate OutStep(op: Op, mode: Mode, s: Out, reply: Reply, s': Out) {
    match op
    case WriteOp(data) =>
      && reply.Count?
      && if mode.LineBuffered? then LineWrote(s, data, reply.count, s')
         else Acked(s, data, reply.count, s') && Placed(s, data, reply.count, s')
    case WriteAllOp(data) =>
      && reply.Done?
      && if mode.LineBuffered? then LineWroteAll(s, data, reply.done, s')
         else AckedAll(s, data, reply.done, s') && PlacedAll(s, data, reply.done, s')
    case WriteVectoredOp(slices) =>
      && reply.Count?
      && if mode.LineBuffered? then LineWroteVectored(s, slices, mode.vectored, reply.count, s')
         else Acked(s, Concat(slices), reply.count, s') && Placed(s, Concat(slices), reply.count, s')
    case FlushOp => reply.Done? && FlushedThrough(s, reply.done, s')
    case ReadOp(_) => reply.Gave? && ReadBehind(s, reply.end, s')
    case ReadVectoredOp(_) => reply.Gave? && ReadBehind(s, reply.end, s')
    case ReadUntilOp(_) => reply.Gave? && ReadBehind(s, reply.end, s')
    case FillBufOp => reply.Shown? && s'.Intact() && ReadAs(s, Unit(reply.view), s', false)
    case ConsumeOp(_) => reply.Gave? && reply.end.Ok? && s' == s
    case IntoInnerOp => reply.Done? && Emptied(s, reply.done, s')
  }

  /** What one public operation may do to the incoming half. */
  ghost predicate InStep(op: Op, s: In, reply: Reply, s': In) {
    match op
    case ReadOp(room) => reply.Gave? && Took(s, room, reply.given, reply.end, s')
    case ReadVectoredOp(rooms) => reply.Gave? && Took(s, TotalRoom(rooms), reply.given, reply.end, s')
    case ReadUntilOp(delim) => reply.Gave? && TookThrough(s, delim, reply.given, reply.end, s')
    case FillBufOp => reply.Shown? && Filled(s, reply.view, s')
    case ConsumeOp(amount) => reply.Gave? && Consumed(s, amount, reply.given, s')
    case _ => !reply.Gave? && s' == s
  }

  ghost predicate Step(op: Op, mode: Mode, s: State, reply: Reply, s': State) {
    OutStep(op, mode, s.out, reply, s'.out) && InStep(op, s.incoming, reply, s'.incoming)
  }

  predicate CallsForReading(op: Op) {
    op.ReadOp? || op.ReadVectoredOp? || op.ReadUntilOp?
  }

  /** The bytes a reply acknowledges. */
  ghost predicate Acknowledged(op: Op, reply: Reply, ack: seq<byte>) {
    match op
    case WriteOp(data) =>
      if reply.Count? && reply.count.Ok? && reply.count.value <= |data| then ack == data[..reply.count.value]
      else ack == []
    case WriteVectoredOp(slices) =>
      if reply.Count? && reply.count.Ok? && reply.count.value <= |Concat(slices)|
      then ack == Concat(slices)[..reply.count.value]
      else ack == []
    case WriteAllOp(data) => if reply.Done? && reply.done.Ok? then ack == data else ack <= data
    case _ => ack == []
  }

  /** What is kept between operations. */
  ghost predicate Kept(mode: Mode, s: Out) {
    s.Valid() && (mode.LineBuffered? ==> LineDiscipline(s.buffered))
  }

  lemma FlushKeeps(op: Op, mode: Mode, s: Out, end: Outcome<()>, s': Out)
    requires Kept(mode, s) && !end.Panicked? && KeptStream(s, end, s') && s'.capacity == s.capacity
    requires IsSuffix(s'.buffered, s.buffered)
    ensures Kept(mode, s')
  {
    if mode.LineBuffered? {
      SuffixKeepsDiscipline(s'.buffered, s.buffered);
    }
  }

  /** Each operation that does not panic acknowledges exactly what its reply says. */
  lemma StepKeeps(op: Op, mode: Mode, s: Out, reply: Reply, s': Out) returns (ack: seq<byte>)
    requires Kept(mode, s) && OutStep(op, mode, s, reply, s') && !Panics(reply)
    ensures Kept(mode, s') && s'.capacity == s.capacity
    ensures Acknowledged(op, reply, ack) && s'.Stream() == s.Stream() + ack
    ensures Extends(s'.trace, s.trace)
  {
    ack := [];
    AddNothing(s.Stream());
    match op {
      case WriteOp(data) =>
        if reply.count.Ok? {
          ack := data[..reply.count.value];
        }
      case WriteVectoredOp(slices) =>
        if reply.count.Ok? {
          ack := Concat(slices)[..reply.count.value];
        }
      case WriteAllOp(data) =>
        if reply.done.Ok? {
          ack := data;
        } else {
          var n: nat :| n <= |data| && s'.Stream() == s.Stream() + data[..n];
          ack := data[..n];
        }
      case FillBufOp =>
        ReadsKeep(s'.trace, s.trace);
      case ConsumeOp(_) =>
      case FlushOp => FlushKeeps(op, mode, s, reply.done, s');
      case IntoInnerOp => FlushKeeps(op, mode, s, reply.done, s');
      case _ => FlushKeeps(op, mode, s, reply.end, s');
    }
  }

  /** Each operation hands out exactly what it takes off the incoming stream. */
  lemma StepHandsOut(op: Op, s: In, reply: Reply, s': In)
    requires InStep(op, s, reply, s')
    ensures s.Stream() == Given(reply) + s'.Stream() && s'.capacity == s.capacity
  {
    if op.ConsumeOp? {
      ConsumedKeeps(s, op.amount, reply.given, s');
    } else if !reply.Gave? {
      assert [] + s'.Stream() == s'.Stream();
    }
  }

  /** The states, operations and replies of a run that nothing has ended. */
  ghost predicate Run(mode: Mode, states: seq<State>, ops: seq<Op>, replies: seq<Reply>) {
    && RunOut(mode, states, ops, replies) && RunIn(states, ops, replies)
    && forall i :: 0 <= i < |ops| ==> !EndsRun(ops[i], replies[i])
  }

  ghost predicate RunOut(mode: Mode, states: seq<State>, ops: seq<Op>, replies: seq<Reply>) {
    && |states| == |ops| + 1 == |replies| + 1
    && forall i :: 0 <= i < |ops| ==>
                     !Panics(replies[i]) && OutStep(ops[i], mode, states[i].out, replies[i], states[i + 1].out)
  }

  ghost predicate RunIn(states: seq<State>, ops: seq<Op>, replies: seq<Reply>) {
    && |states| == |ops| + 1 == |replies| + 1
    && forall i :: 0 <= i < |ops| ==> InStep(ops[i], states[i].incoming, replies[i], states[i + 1].incoming)
  }

  /** Operations carried out one after the other, whatever their replies. */
  ghost predicate Steps(mode: Mode, states: seq<State>, ops: seq<Op>, replies: seq<Reply>) {
    && |states| == |ops| + 1 == |replies| + 1
    && forall i :: 0 <= i < |ops| ==> Step(ops[i], mode, states[i], replies[i], states[i + 1])
  }

  lemma OneStep(op: Op, mode: Mode, s: State, reply: Reply, s': State)
    ensures Steps(mode, [s, s'], [op], [reply]) <==> Step(op, mode, s, reply, s')
  {
    assert [op][0] == op && [reply][0] == reply && [s, s'][0] == s && [s, s'][1] == s';
  }

  lemma RunGrows(mode: Mode, states: seq<State>, ops: seq<Op>, replies: seq<Reply>, op: Op, reply: Reply, s': State)
    requires Run(mode, states, ops, replies)
    requires Step(op, mode, states[|ops|], reply, s') && !EndsRun(op, reply)
    ensures Run(mode, states + [s'], ops + [op], replies + [reply])
  {
    RunOutGrows(mode, states, ops, replies, op, reply, s');
    RunInGrows(states, ops, replies, op, reply, s');
  }

  lemma RunOutGrows(mode: Mode, states: seq<State>, ops: seq<Op>, replies: seq<Reply>, op: Op, reply: Reply, s': State)
    requires RunOut(mode, states, ops, replies)
    requires OutStep(op, mode, states[|ops|].out, reply, s'.out) && !Panics(reply)
    ensures RunOut(mode, states + [s'], ops + [op], replies + [reply])
  {
    var states', ops', replies' := states + [s'], ops + [op], replies + [reply];
    forall i | 0 <= i < |ops'|
      ensures !Panics(replies'[i]) && OutStep(ops'[i], mode, states'[i].out, replies'[i], states'[i + 1].out)
    {
      if i < |ops| {
        assert ops'[i] == ops[i] && replies'[i] == replies[i];
        assert states'[i] == states[i] && states'[i + 1] == states[i + 1];
      } else {
        assert states'[i] == states[i] && states'[i + 1] == s';
      }
    }
  }

  lemma RunInGrows(states: seq<State>, ops: seq<Op>, replies: seq<Reply>, op: Op, reply: Reply, s': State)
    requires RunIn(states, ops, replies) && InStep(op, states[|ops|].incoming, reply, s'.incoming)
    ensures RunIn(states + [s'], ops + [op], replies + [reply])
  {
  }

  /** Over any run and whatever the device does: the bytes the device took, followed by what
      is buffered, are exactly the bytes acknowledged so far, in order; what is buffered
      fits and hides no complete line; and every device call made was permitted. */
  lemma {:induction false} RunConserves(mode: Mode, states: seq<State>, ops: seq<Op>, replies: seq<Reply>)
    returns (acks: seq<seq<byte>>)
    requires RunOut(mode, states, ops, replies)
    requires Kept(mode, states[0].out)
    ensures |acks| == |ops| && forall i :: 0 <= i < |ops| ==> Acknowledged(ops[i], replies[i], acks[i])
    ensures Conserved(mode, states[0].out, acks, states[|ops|].out)
  {
    var n, start := |ops|, states[0].out;
    if n == 0 {
      acks := [];
      ConservedFirst(mode, start);
    } else {
      RunOutShrinks(mode, states, ops, replies);
      var earlier := RunConserves(mode, states[..n], ops[..n - 1], replies[..n - 1]);
      var ack := StepKeeps(ops[n - 1], mode, states[n - 1].out, replies[n - 1], states[n].out);
      acks := earlier + [ack];
      ConservedOn(mode, start, earlier, states[n - 1].out, ack, states[n].out);
    }
  }

  ghost predicate Conserved(mode: Mode, start: Out, acks: seq<seq<byte>>, last: Out) {
    && last.received + last.buffered == start.Stream() + Concat(acks)
    && |last.buffered| <= start.capacity == last.capacity
    && Kept(mode, last) && Disciplined(last.trace) && Extends(last.trace, start.trace)
  }

  lemma ConservedFirst(mode: Mode, start: Out)
    requires Kept(mode, start)
    ensures Conserved(mode, start, [], start)
  {
    AddNothing(start.Stream());
  }

  lemma RunOutShrinks(mode: Mode, states: seq<State>, ops: seq<Op>, replies: seq<Reply>)
    requires RunOut(mode, states, ops, replies) && ops != []
    ensures var n := |ops| - 1;
            RunOut(mode, states[..n + 1], ops[..n], replies[..n])
  {
  }

  lemma ConservedOn(mode: Mode, start: Out, acks: seq<seq<byte>>, s: Out, ack: seq<byte>, s': Out)
    requires Conserved(mode, start, acks, s) && Kept(mode, s') && s'.capacity == s.capacity
    requires s'.Stream() == s.Stream() + ack && Extends(s'.trace, s.trace)
    ensures Conserved(mode, start, acks + [ack], s')
  {
    ConcatSnoc(acks, ack);
    Associate(start.Stream(), Concat(acks), ack);
    ExtendsTransitive(s'.trace, s.trace, start.trace);
  }

  /** And the bytes handed out by the replies, in order, followed by what remains of the
      incoming stream are the incoming stream at the start. */
  lemma {:induction false} RunHandsOut(states: seq<State>, ops: seq<Op>, replies: seq<Reply>)
    requires RunIn(states, ops, replies)
    ensures states[0].incoming.Stream() == AllGiven(replies) + states[|ops|].incoming.Stream()
  {
    var n := |ops|;
    if n == 0 {
      assert [] + states[0].incoming.Stream() == states[0].incoming.Stream();
    } else {
      assert RunIn(states[..n], ops[..n - 1], replies[..n - 1]);
      RunHandsOut(states[..n], ops[..n - 1], replies[..n - 1]);
      StepHandsOut(ops[n - 1], states[n - 1].incoming, replies[n - 1], states[n].incoming);
      Associate(AllGiven(replies[..n - 1]), Given(replies[n - 1]), states[n].incoming.Stream());
    }
  }

  /** What the device holds after an operation that succeeded: after a line-buffered
      `write_all` every completed line of the stream, after a flush or a read all of it. */
  ghost predicate Reached(op: Op, mode: Mode, all: seq<byte>, s: Out) {
    && (op.WriteAllOp? && mode.LineBuffered? ==> CompletedLines(all) <= s.received)
    && (op.FlushOp? ==> s.received == all && Synced(s.trace))
    && (CallsForReading(op) ==> s.received == all && Quiet(s.trace))
  }

  lemma StepReaches(op: Op, mode: Mode, s: Out, reply: Reply, s': Out)
    requires OutStep(op, mode, s, reply, s') && Succeeds(reply)
    ensures Reached(op, mode, s'.Stream(), s')
  {
    AddNothing(s'.received);
  }

  /** At any point of a run after an operation that succeeded the device holds what it should
      of everything ever acknowledged. */
  lemma {:induction false} RunReaches(mode: Mode, states: seq<State>, ops: seq<Op>, replies: seq<Reply>)
    returns (acks: seq<seq<byte>>)
    requires RunOut(mode, states, ops, replies) && Kept(mode, states[0].out) && ops != []
    ensures |acks| == |ops| && forall i :: 0 <= i < |ops| ==> Acknowledged(ops[i], replies[i], acks[i])
    ensures Succeeds(replies[|ops| - 1]) ==>
              Reached(ops[|ops| - 1], mode, states[0].out.Stream() + Concat(acks), states[|ops|].out)
  {
    acks := RunConserves(mode, states, ops, replies);
    var n := |ops| - 1;
    if Succeeds(replies[n]) {
      StepReaches(ops[n], mode, states[n].out, replies[n], states[n + 1].out);
    }
  }

  /** Every device write in a run, whenever it was made, set the flag that stops the destructor
      or left the destructor nothing to write; and no new byte overtook a retained one. */
  lemma WritesArePanicSafe(mode: Mode, states: seq<State>, ops: seq<Op>, replies: seq<Reply>, before: Trace, e: Event)
    requires RunOut(mode, states, ops, replies) && Kept(mode, states[0].out)
    requires Extends(states[|ops|].out.trace, Then(before, e)) && e.WriteEvent?
    ensures e.armed || e.retained == []
    ensures if e.origin.Fresh? then e.retained == [] else IsSuffix(e.offered, e.retained)
  {
    var acks := RunConserves(mode, states, ops, replies);
  }

  /** Every device call that a read makes to read comes after a flush that succeeded with no
      write since, and finds nothing buffered, whatever the reads between them answered. */
  lemma RequestBeforeResponse(op: Op, mode: Mode, s: Out, reply: Reply, s': Out, before: Trace, e: Event)
    returns (flush: Trace)
    requires CallsForReading(op) && OutStep(op, mode, s, reply, s')
    requires Extends(s'.trace, Then(before, e)) && Extends(before, s.trace) && e.ReadEvent?
    ensures Synced(flush) && OnlyReadsSince(before, flush) && e.retained == []
  {
    ReadSinceIsGated(s'.trace, s.trace, before, e);
    flush := GatedReadFollowsFlush(s'.trace, before, e);
  }

  function Argument(op: Op): seq<byte> {
    match op
    case WriteOp(data) => data
    case WriteAllOp(data) => data
    case WriteVectoredOp(slices) => Concat(slices)
    case _ => []
  }

  /** A panic ends a run: by then the device holds a part of what was acknowledged followed
      by the argument of the call that panicked, and the destructor has nothing to write,
      unless the device panicked while filling the reader buffer without a flush. */
  lemma PanicEndsRun(op: Op, mode: Mode, s: Out, reply: Reply, s': Out)
    requires s.Valid() && OutStep(op, mode, s, reply, s') && Panics(reply)
    ensures s'.received <= s.Stream() + Argument(op) && Extends(s'.trace, s.trace)
    ensures if op.FillBufOp? then s'.Valid() && s'.Stream() == s.Stream() else s'.Poisoned()
  {
    AddNothing(s.Stream());
    StepExtends(op, mode, s, reply, s');
  }

  lemma StepExtends(op: Op, mode: Mode, s: Out, reply: Reply, s': Out)
    requires OutStep(op, mode, s, reply, s')
    ensures Extends(s'.trace, s.trace)
  {
    if op.FillBufOp? {
      ReadsKeep(s'.trace, s.trace);
    }
  }
}
