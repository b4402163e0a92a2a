/** The half-duplex pumps that carry bytes between a socket and a boxed duplexer. */
module Pumps {
  import opened Bytes
  import opened Devices

  const DEFAULT_BUF_SIZE: nat := 8 * 1024

  datatype Side = Socket | Boxed

  function Other(side: Side): Side {
    if side.Socket? then Boxed else Socket
  }

  /** A call of a pump on one of its endpoints, with the answer. */
  datatype Call =
    | ReadCall(side: Side, room: nat, read: Outcome<seq<byte>>)
    | WriteCall(side: Side, data: seq<byte>, taken: nat, wrote: Outcome<()>)

  datatype Calls = NoCalls | And(earlier: Calls, latest: Call)

  /** What a pump does next. */
  datatype Pump = Reading(side: Side) | Writing(side: Side, chunk: seq<byte>) | Stopped(r: Outcome<()>)

  /** The pump as a machine: a chunk read on one side is written whole to the other, and a
      chunk that does not fill the buffer turns the direction around. An interrupted read
      counts as an empty chunk. None when `call` is not the call the pump makes. */
  function After(p: Pump, call: Call): Option<Pump> {
    match (p, call)
    case (Reading(side), ReadCall(at, room, read)) =>
      if at != side || room != DEFAULT_BUF_SIZE then None
      else (match read
            case Ok(bytes) =>
              if |bytes| > DEFAULT_BUF_SIZE then None
              else if bytes == [] then Some(Stopped(Ok(())))
              else Some(Writing(Other(side), bytes))
            case Err(kind) =>
              if kind == Interrupted then Some(Writing(Other(side), [])) else Some(Stopped(Err(kind)))
            case Panicked => Some(Stopped(Panicked)))
    case (Writing(side, chunk), WriteCall(at, data, taken, wrote)) =>
      if at != side || data != chunk || taken > |data| || (wrote.Ok? && taken != |data|) then None
      else if !wrote.Ok? then Some(Stopped(wrote))
      else if |chunk| < DEFAULT_BUF_SIZE then Some(Reading(side))
      else Some(Reading(Other(side)))
    case _ => None
  }

  /** Where the pump that first reads from `first` is after `calls`. */
  function State(first: Side, calls: Calls): Option<Pump> {
    match calls
    case NoCalls => Some(Reading(first))
    case And(earlier, latest) =>
      match State(first, earlier)
      case None => None
      case Some(p) => After(p, latest)
  }

  /** A call as a pump makes it: reads with a window of a whole buffer, and writes of all or
      nothing, which may fail having taken some. */
  predicate WellMade(call: Call) {
    match call
    case ReadCall(_, room, read) => room == DEFAULT_BUF_SIZE && (read.Ok? ==> |read.value| <= room)
    case WriteCall(_, data, taken, wrote) => taken <= |data| && (wrote.Ok? ==> taken == |data|)
  }

  /** What may come next: after a read that got something, or was interrupted, a write of just
      that to the other side; after a write that succeeded a read, from the side written to if
      the chunk was short, else once more from the side it came from. */
  predicate Follows(next: Call, prev: Call) {
    match prev
    case ReadCall(side, _, read) =>
      && next.WriteCall? && next.side == Other(side)
      && (match read
          case Ok(bytes) => bytes != [] && next.data == bytes
          case Err(kind) => kind.Interrupted? && next.data == []
          case Panicked => false)
    case WriteCall(side, data, _, wrote) =>
      && next.ReadCall? && wrote.Ok?
      && next.side == if |data| < DEFAULT_BUF_SIZE then side else Other(side)
  }

  /** How a pump ends: well when a read finds the end of the input; else as its last call did. */
  predicate Answers(last: Call, r: Outcome<()>) {
    match last
    case ReadCall(_, _, read) =>
      (match read
       case Ok(bytes) => bytes == [] && r.Ok?
       case Err(kind) => !kind.Interrupted? && r.Err? && r.kind == kind
       case Panicked => r.Panicked?)
    case WriteCall(_, _, _, wrote) =>
      (match wrote
       case Ok(_) => false
       case Err(kind) => r.Err? && r.kind == kind
       case Panicked => r.Panicked?)
  }

  /** Each call follows the one before it, and the first is a read from `first`. */
  predicate Chained(first: Side, calls: Calls) {
    match calls
    case NoCalls => true
    case And(earlier, latest) => Chained(first, earlier) && WellMade(latest) && MayCome(first, earlier, latest)
  }

  predicate MayCome(first: Side, calls: Calls, next: Call) {
    if calls.NoCalls? then next.ReadCall? && next.side == first else Follows(next, calls.latest)
  }

  /** The machine makes exactly the calls that follow one another. */
  lemma {:induction false} StateIffChained(first: Side, calls: Calls)
    ensures State(first, calls).Some? <==> Chained(first, calls)
  {
    if calls.And? {
      StateIffChained(first, calls.earlier);
      if State(first, calls.earlier).Some? {
        NextIffFollows(first, calls.earlier, calls.latest);
      }
    }
  }

  lemma NextIffFollows(first: Side, calls: Calls, next: Call)
    requires State(first, calls).Some?
    ensures After(State(first, calls).value, next).Some? <==> WellMade(next) && MayCome(first, calls, next)
  {
    if calls.And? {
      var p := State(first, calls.earlier).value;
      assert State(first, calls) == After(p, calls.latest);
    }
  }

  /** And it stops, with the answer of its last call, exactly when nothing can follow. */
  lemma StoppedIffAnswers(first: Side, calls: Calls, r: Outcome<()>)
    requires State(first, calls).Some?
    ensures State(first, calls) == Some(Stopped(r)) <==> calls.And? && Answers(calls.latest, r)
  {
    if calls.And? {
      var p := State(first, calls.earlier).value;
      assert State(first, calls) == After(p, calls.latest);
      match r
      case Ok(unit) => assert unit == ();
      case _ =>
    }
  }

  /** What the pump has read from `side`. */
  function ReadFrom(side: Side, calls: Calls): seq<byte> {
    match calls
    case NoCalls => []
    case And(earlier, latest) =>
      ReadFrom(side, earlier) +
      if latest.ReadCall? && latest.side == side && latest.read.Ok? then latest.read.value else []
  }

  /** What `side` has taken from the pump. */
  function WrittenTo(side: Side, calls: Calls): seq<byte> {
    match calls
    case NoCalls => []
    case And(earlier, latest) =>
      WrittenTo(side, earlier) +
      if latest.WriteCall? && latest.side == side && latest.taken <= |latest.data|
      then latest.data[..latest.taken] else []
  }

  /** How often the pump has turned around. */
  function Turns(calls: Calls): nat {
    match calls
    case NoCalls => 0
    case And(earlier, latest) =>
      Turns(earlier) + if latest.WriteCall? && latest.wrote.Ok? && |latest.data| < DEFAULT_BUF_SIZE then 1 else 0
  }

  /** At every point, whatever the endpoints answer, each side has received a prefix of what
      was read from the other, behind by at most one chunk, and by nothing whenever the pump
      is about to read or has stopped without an error. */
  lemma {:induction false} PumpConserves(first: Side, calls: Calls, side: Side)
    requires State(first, calls).Some?
    ensures var p, got, read := State(first, calls).value, WrittenTo(Other(side), calls), ReadFrom(side, calls);
            && got <= read && |read| - |got| <= DEFAULT_BUF_SIZE
            && (p.Reading? || (p.Stopped? && p.r.Ok?) ==> got == read)
            && (p.Writing? ==> read == got + if p.side == Other(side) then p.chunk else [])
            && (p.Writing? ==> |p.chunk| <= DEFAULT_BUF_SIZE)
  {
    if calls.And? {
      PumpConserves(first, calls.earlier, side);
    }
  }

  function SwapCalls(calls: Calls): Calls {
    match calls
    case NoCalls => NoCalls
    case And(earlier, latest) => And(SwapCalls(earlier), latest.(side := Other(latest.side)))
  }

  function SwapPump(p: Pump): Pump {
    if p.Stopped? then p else p.(side := Other(p.side))
  }

  /** The two pumps are one pump with the endpoints exchanged. */
  lemma {:induction false} PumpsMirror(first: Side, calls: Calls)
    ensures State(Other(first), SwapCalls(calls)) ==
            match State(first, calls) case None => None case Some(p) => Some(SwapPump(p))
  {
    if calls.And? {
      PumpsMirror(first, calls.earlier);
    }
  }

  /** An endpoint has received `got` and has `input` to give; before `calls` it had received
      `got0` and had `input0` to give. */
  ghost predicate Balanced(got0: seq<byte>, input0: seq<byte>, side: Side, calls: Calls, got: seq<byte>,
                           input: seq<byte>)
  {
    got == got0 + WrittenTo(side, calls) && input0 == ReadFrom(side, calls) + input
  }

  lemma BalancedRead(got0: seq<byte>, input0: seq<byte>, side: Side, calls: Calls, got: seq<byte>, input: seq<byte>,
                     room: nat, read: Outcome<seq<byte>>, rest: seq<byte>)
    requires Balanced(got0, input0, side, calls, got, input)
    requires if read.Ok? then input == read.value + rest else input == rest
    ensures Balanced(got0, input0, side, And(calls, ReadCall(side, room, read)), got, rest)
  {
    Associate(ReadFrom(side, calls), if read.Ok? then read.value else [], rest);
    assert ReadFrom(side, calls) + [] == ReadFrom(side, calls);
  }

  lemma BalancedWrite(got0: seq<byte>, input0: seq<byte>, side: Side, calls: Calls, got: seq<byte>, input: seq<byte>,
                      data: seq<byte>, taken: nat, wrote: Outcome<()>)
    requires Balanced(got0, input0, side, calls, got, input) && taken <= |data|
    ensures Balanced(got0, input0, side, And(calls, WriteCall(side, data, taken, wrote)), got + data[..taken], input)
  {
    Associate(got0, WrittenTo(side, calls), data[..taken]);
    assert ReadFrom(side, calls) + [] == ReadFrom(side, calls);
  }

  /** A call on the other endpoint changes nothing here. */
  lemma BalancedElsewhere(got0: seq<byte>, input0: seq<byte>, side: Side, calls: Calls, got: seq<byte>,
                          input: seq<byte>, call: Call)
    requires Balanced(got0, input0, side, calls, got, input) && call.side == Other(side)
    ensures Balanced(got0, input0, side, And(calls, call), got, input)
  {
    assert ReadFrom(side, calls) + [] == ReadFrom(side, calls);
    assert WrittenTo(side, calls) + [] == WrittenTo(side, calls);
  }

  /** What the record of a device shows of `calls`: those made on its side, in order, each with
      its window or its data and its answer. */
  ghost function Made(t0: Trace, side: Side, calls: Calls): Trace {
    match calls
    case NoCalls => t0
    case And(earlier, latest) =>
      if latest.side == side then Then(Made(t0, side, earlier), EventOf(latest)) else Made(t0, side, earlier)
  }

  function EventOf(call: Call): Event {
    match call
    case ReadCall(_, room, read) => ReadEvent(read, room, false, [])
    case WriteCall(_, data, taken, wrote) => WriteEvent(data, taken, Counted(wrote, |data|), Fresh, false, [])
  }

  /** The record that the two endpoints of a pump share: every call made on either, in order. */
  class Wire {
    ghost var calls: Calls

    constructor ()
      ensures calls == NoCalls
    {
      calls := NoCalls;
    }
  }

  /** One end of a pump: a device, with what it had received, had to give and had been called
      for before the pump started. */
  class Endpoint {
    const device: Device
    const side: Side
    const wire: Wire
    ghost const got0: seq<byte>
    ghost const input0: seq<byte>
    ghost const trace0: Trace

    constructor (device: Device, side: Side, wire: Wire)
      requires device.Valid() && wire.calls == NoCalls
      ensures Valid() && this.device == device && this.side == side && this.wire == wire
      ensures got0 == device.received && input0 == device.input && trace0 == device.trace
    {
      this.device, this.side, this.wire := device, side, wire;
      got0, input0, trace0 := device.received, device.input, device.trace;
      new;
      assert got0 + [] == got0 && [] + input0 == input0;
    }

    /** The calls on the wire account for all that happened to the device: its record, what it
        has received, and what it has given. */
    ghost predicate Valid()
      reads device, wire
    {
      && device.Valid()
      && device.trace == Made(trace0, side, wire.calls)
      && Balanced(got0, input0, side, wire.calls, device.received, device.input)
    }

    method Read(room: nat) returns (r: Outcome<seq<byte>>)
      requires Valid()
      modifies device, wire
      ensures Valid() && wire.calls == And(old(wire.calls), ReadCall(side, room, r))
      ensures device.received == old(device.received)
      ensures r.Ok? ==> |r.value| <= room && old(device.input) == r.value + device.input
      ensures r.Ok? && r.value == [] && room > 0 ==> device.input == []
      ensures !r.Ok? ==> device.input == old(device.input)
      ensures device.patience <= old(device.patience)
      ensures r == Err(Interrupted) ==> device.patience < old(device.patience)
    {
      ghost var calls, got, input := wire.calls, device.received, device.input;
      r := device.Read(room, false, []);
      wire.calls := And(calls, ReadCall(side, room, r));
      BalancedRead(got0, input0, side, calls, got, input, room, r, device.input);
    }

    method WriteAll(data: seq<byte>) returns (r: Outcome<()>, ghost taken: nat)
      requires Valid()
      modifies device, wire
      ensures Valid() && wire.calls == And(old(wire.calls), WriteCall(side, data, taken, r))
      ensures taken <= |data| && (r.Ok? ==> taken == |data|)
      ensures device.input == old(device.input) && device.patience <= old(device.patience)
    {
      ghost var calls, got := wire.calls, device.received;
      r, taken := device.WriteAll(data, Fresh, false, []);
      wire.calls := And(calls, WriteCall(side, data, taken, r));
      BalancedWrite(got0, input0, side, calls, got, device.input, data, taken, r);
    }
  }

  /** The two ends of one pump. */
  ghost predicate Joined(a: Endpoint, d: Endpoint)
    reads a.device, d.device, a.wire, d.wire
  {
    && a.wire == d.wire && a.device != d.device && a.side == Other(d.side)
    && a.Valid() && d.Valid()
  }

  ghost function Left(a: Endpoint, d: Endpoint): nat
    reads a.device, d.device
  {
    a.device.patience + d.device.patience + |a.device.input| + |d.device.input|
  }

  /** Reads a chunk; an interruption counts as an empty one. `stop` says that the pump is over,
      with `r`. */
  method ReadChunk(from: Endpoint, ghost to: Endpoint)
    returns (chunk: seq<byte>, stop: bool, r: Outcome<()>, ghost read: Outcome<seq<byte>>)
    requires Joined(from, to)
    modifies from.device, from.wire
    ensures Joined(from, to)
    ensures from.wire.calls == And(old(from.wire.calls), ReadCall(from.side, DEFAULT_BUF_SIZE, read))
    ensures After(Reading(from.side), ReadCall(from.side, DEFAULT_BUF_SIZE, read)) ==
            Some(if stop then Stopped(r) else Writing(to.side, chunk))
    ensures stop ==> Answers(ReadCall(from.side, DEFAULT_BUF_SIZE, read), r)
    ensures !stop ==> if read.Ok? then chunk == read.value != [] else read == Err(Interrupted) && chunk == []
    ensures stop && r.Ok? ==> from.device.input == []
    ensures Left(from, to) <= old(Left(from, to)) && (!stop ==> Left(from, to) < old(Left(from, to)))
  {
    ghost var calls := from.wire.calls;
    var res := from.Read(DEFAULT_BUF_SIZE);
    read := res;
    BalancedElsewhere(to.got0, to.input0, to.side, calls, to.device.received, to.device.input,
                      ReadCall(from.side, DEFAULT_BUF_SIZE, read));
    chunk, stop, r := [], false, Ok(());
    match res {
      case Ok(bytes) =>
        chunk, stop := bytes, bytes == [];
      case Err(kind) =>
        if kind != Interrupted {
          stop, r := true, Err(kind);
        }
      case Panicked =>
        stop, r := true, Panicked;
    }
  }

  /** Writes a chunk whole. */
  method WriteChunk(ghost from: Endpoint, to: Endpoint, chunk: seq<byte>) returns (r: Outcome<()>, ghost taken: nat)
    requires Joined(from, to)
    modifies to.device, to.wire
    ensures Joined(from, to)
    ensures to.wire.calls == And(old(to.wire.calls), WriteCall(to.side, chunk, taken, r))
    ensures taken <= |chunk| && (r.Ok? ==> taken == |chunk|)
    ensures Left(from, to) <= old(Left(from, to))
  {
    ghost var calls := to.wire.calls;
    r, taken := to.WriteAll(chunk);
    BalancedElsewhere(from.got0, from.input0, from.side, calls, from.device.received, from.device.input,
                      WriteCall(to.side, chunk, taken, r));
  }

  /** Reads a chunk from one endpoint and writes it whole to the other. */
  method Carry(from: Endpoint, to: Endpoint, ghost first: Side) returns (n: nat, stop: bool, r: Outcome<()>)
    requires Joined(from, to) && State(first, from.wire.calls) == Some(Reading(from.side))
    modifies from.device, to.device, from.wire
    ensures Joined(from, to)
    ensures State(first, from.wire.calls) == Some(if stop then Stopped(r)
                                                  else Reading(if n < DEFAULT_BUF_SIZE then to.side else from.side))
    ensures stop && r.Ok? ==> from.device.input == []
    ensures Left(from, to) <= old(Left(from, to)) && (!stop ==> Left(from, to) < old(Left(from, to)))
  {
    var chunk;
    ghost var read;
    chunk, stop, r, read := ReadChunk(from, to);
    n := |chunk|;
    if !stop {
      ghost var taken: nat;
      r, taken := WriteChunk(from, to, chunk);
      stop := !r.Ok?;
    }
  }

  /** Carries from the boxed duplexer first. */
  method ReadFirst(a: Endpoint, d: Endpoint) returns (r: Outcome<()>)
    requires Joined(a, d) && a.side == Socket && d.side == Boxed && a.wire.calls == NoCalls
    modifies a.device, d.device, a.wire
    ensures Joined(a, d) && State(Boxed, a.wire.calls) == Some(Stopped(r))
    ensures Chained(Boxed, a.wire.calls) && a.wire.calls.And? && Answers(a.wire.calls.latest, r)
    ensures r.Ok? ==> a.device.input == [] || d.device.input == []
    ensures r.Ok? ==> WrittenTo(Socket, a.wire.calls) == ReadFrom(Boxed, a.wire.calls)
    ensures r.Ok? ==> WrittenTo(Boxed, a.wire.calls) == ReadFrom(Socket, a.wire.calls)
  {
    r := Ok(());
    label thread:
    while true
      invariant Joined(a, d) && State(Boxed, a.wire.calls) == Some(Reading(Boxed))
      decreases Left(a, d)
    {
      ghost var left := Left(a, d);
      while true
        invariant Joined(a, d) && State(Boxed, a.wire.calls) == Some(Reading(Boxed))
        invariant Left(a, d) <= left
        decreases Left(a, d)
      {
        var n, stop;
        n, stop, r := Carry(d, a, Boxed);
        if stop {
          break thread;
        }
        if n < DEFAULT_BUF_SIZE {
          break;
        }
      }

      while true
        invariant Joined(a, d) && State(Boxed, a.wire.calls) == Some(Reading(Socket))
        invariant Left(a, d) < left
        decreases Left(a, d)
      {
        var n, stop;
        n, stop, r := Carry(a, d, Boxed);
        if stop {
          break thread;
        }
        if n < DEFAULT_BUF_SIZE {
          break;
        }
      }
    }
    StateIffChained(Boxed, a.wire.calls);
    StoppedIffAnswers(Boxed, a.wire.calls, r);
    PumpConserves(Boxed, a.wire.calls, Boxed);
    PumpConserves(Boxed, a.wire.calls, Socket);
  }

  /** Carries from the socket first. */
  method WriteFirst(a: Endpoint, d: Endpoint) returns (r: Outcome<()>)
    requires Joined(a, d) && a.side == Socket && d.side == Boxed && a.wire.calls == NoCalls
    modifies a.device, d.device, a.wire
    ensures Joined(a, d) && State(Socket, a.wire.calls) == Some(Stopped(r))
    ensures Chained(Socket, a.wire.calls) && a.wire.calls.And? && Answers(a.wire.calls.latest, r)
    ensures r.Ok? ==> a.device.input == [] || d.device.input == []
    ensures r.Ok? ==> WrittenTo(Socket, a.wire.calls) == ReadFrom(Boxed, a.wire.calls)
    ensures r.Ok? ==> WrittenTo(Boxed, a.wire.calls) == ReadFrom(Socket, a.wire.calls)
  {
    r := Ok(());
    label thread:
    while true
      invariant Joined(a, d) && State(Socket, a.wire.calls) == Some(Reading(Socket))
      decreases Left(a, d)
    {
      ghost var left := Left(a, d);
      while true
        invariant Joined(a, d) && State(Socket, a.wire.calls) == Some(Reading(Socket))
        invariant Left(a, d) <= left
        decreases Left(a, d)
      {
        var n, stop;
        n, stop, r := Carry(a, d, Socket);
        if stop {
          break thread;
        }
        if n < DEFAULT_BUF_SIZE {
          break;
        }
      }

      while true
        invariant Joined(a, d) && State(Socket, a.wire.calls) == Some(Reading(Boxed))
        invariant Left(a, d) < left
        decreases Left(a, d)
      {
        var n, stop;
        n, stop, r := Carry(d, a, Socket);
        if stop {
          break thread;
        }
        if n < DEFAULT_BUF_SIZE {
          break;
        }
      }
    }
    StateIffChained(Socket, a.wire.calls);
    StoppedIffAnswers(Socket, a.wire.calls, r);
    PumpConserves(Socket, a.wire.calls, Boxed);
    PumpConserves(Socket, a.wire.calls, Socket);
  }

  /** What comes of a conversation: the calls made, the pump after them, and whether it is
      left reading from a side that has nothing to say for now. */
  datatype Talked = Talked(calls: Calls, p: Pump, blocked: bool)

  /** The most the next read may return; no limit below the buffer once the list is used up. */
  function Limit(limits: seq<nat>): nat {
    if limits == [] then DEFAULT_BUF_SIZE else limits[0]
  }

  function Later(limits: seq<nat>): seq<nat> {
    if limits == [] then [] else limits[1..]
  }

  /** The pump between two sides that speak in turn, `speaker` first, saying the messages
      `ms` in order: a read returns as much of the speaker's message as fits a buffer and the
      limit given for that read, where a limit of 0 is an interruption; every write succeeds,
      and a side says nothing out of its turn. */
  function Talk(p: Pump, ms: seq<seq<byte>>, speaker: Side, limits: seq<nat>, calls: Calls): Talked
    requires p.Reading?
    decreases |Concat(ms)|, |ms|, |limits|
  {
    if ms == [] then Talked(calls, p, p.side != speaker)
    else if p.side != speaker || ms[0] == [] then Talked(calls, p, true)
    else
      var interrupted := Limit(limits) == 0;
      var k := Min(Min(|ms[0]|, DEFAULT_BUF_SIZE), Limit(limits));
      var read := ReadCall(speaker, DEFAULT_BUF_SIZE, if interrupted then Err(Interrupted) else Ok(ms[0][..k]));
      var chunk := After(p, read).value.chunk;
      var write := WriteCall(Other(speaker), chunk, |chunk|, Ok(()));
      var p' := After(After(p, read).value, write).value;
      var calls' := And(And(calls, read), write);
      if interrupted then Talk(p', ms, speaker, Later(limits), calls')
      else if k == |ms[0]| then Talk(p', ms[1..], Other(speaker), Later(limits), calls')
      else
        ConcatCons(ms[0][k..], ms[1..]);
        Talk(p', [ms[0][k..]] + ms[1..], speaker, Later(limits), calls')
  }

  /** The length of the chunk due at each read when every read returns all it can. */
  function Dues(ms: seq<seq<byte>>): seq<nat>
    decreases |Concat(ms)|, |ms|
  {
    if ms == [] then []
    else if |ms[0]| <= DEFAULT_BUF_SIZE then [|ms[0]|] + Dues(ms[1..])
    else
      ConcatCons(ms[0][DEFAULT_BUF_SIZE..], ms[1..]);
      [DEFAULT_BUF_SIZE] + Dues([ms[0][DEFAULT_BUF_SIZE..]] + ms[1..])
  }

  /** No message ends exactly where a buffer does. */
  predicate NoneFillsBuffers(ms: seq<seq<byte>>) {
    forall i :: 0 <= i < |ms| ==> |ms[i]| % DEFAULT_BUF_SIZE != 0
  }

  /** Each read is allowed the chunk due at it. */
  predicate Covers(limits: seq<nat>, dues: seq<nat>) {
    forall i :: 0 <= i < |limits| && i < |dues| ==> limits[i] >= dues[i]
  }

  /** What `side` says in a conversation. */
  function Said(ms: seq<seq<byte>>, speaker: Side, side: Side): seq<byte> {
    if ms == [] then []
    else (if speaker == side then ms[0] else []) + Said(ms[1..], Other(speaker), side)
  }

  lemma CoversFirst(limits: seq<nat>, due: nat, dues: seq<nat>)
    requires due <= DEFAULT_BUF_SIZE
    ensures Covers(limits, [due] + dues) <==> Limit(limits) >= due && Covers(Later(limits), dues)
  {
    var all := [due] + dues;
    if limits != [] {
      assert forall i :: 0 < i < |limits| && i < |all| ==> limits[i] == limits[1..][i - 1] && all[i] == dues[i - 1];
      if limits[0] >= due && Covers(limits[1..], dues) {
        forall i | 0 <= i < |limits| && i < |all| ensures limits[i] >= all[i] {
          if i > 0 {
            assert limits[1..][i - 1] >= dues[i - 1];
          }
        }
      }
      if Covers(limits, all) {
        forall i | 0 <= i < |limits[1..]| && i < |dues| ensures limits[1..][i] >= dues[i] {
          assert limits[i + 1] >= all[i + 1];
        }
      }
    }
  }

  lemma NoneFillsFirst(ms: seq<seq<byte>>)
    requires ms != []
    ensures NoneFillsBuffers(ms) <==> |ms[0]| % DEFAULT_BUF_SIZE != 0 && NoneFillsBuffers(ms[1..])
  {
    if |ms[0]| % DEFAULT_BUF_SIZE != 0 && NoneFillsBuffers(ms[1..]) {
      forall i | 0 < i < |ms| ensures |ms[i]| % DEFAULT_BUF_SIZE != 0 {
        assert ms[i] == ms[1..][i - 1];
      }
    }
  }

  /** The calls that carry one chunk. */
  function Carried(calls: Calls, speaker: Side, chunk: seq<byte>): Calls {
    And(And(calls, ReadCall(speaker, DEFAULT_BUF_SIZE, Ok(chunk))), WriteCall(Other(speaker), chunk, |chunk|, Ok(())))
  }

  /** A message shorter than a buffer is carried by one read, and the turn passes. */
  lemma TalkShort(ms: seq<seq<byte>>, speaker: Side, limits: seq<nat>, calls: Calls)
    requires ms != [] && 0 < |ms[0]| < DEFAULT_BUF_SIZE && Limit(limits) >= |ms[0]|
    ensures Talk(Reading(speaker), ms, speaker, limits, calls) ==
            Talk(Reading(Other(speaker)), ms[1..], Other(speaker), Later(limits), Carried(calls, speaker, ms[0]))
  {
    assert ms[0][..|ms[0]|] == ms[0];
  }

  /** A longer message loses its first buffer to one read, and goes on. */
  lemma TalkLong(ms: seq<seq<byte>>, speaker: Side, limits: seq<nat>, calls: Calls)
    requires ms != [] && |ms[0]| > DEFAULT_BUF_SIZE && Limit(limits) >= DEFAULT_BUF_SIZE
    ensures Talk(Reading(speaker), ms, speaker, limits, calls) ==
            Talk(Reading(speaker), [ms[0][DEFAULT_BUF_SIZE..]] + ms[1..], speaker, Later(limits),
                 Carried(calls, speaker, ms[0][..DEFAULT_BUF_SIZE]))
  {
  }

  /** Whether the turn is lost at the first read of a message: it is empty, it fills a buffer
      exactly, or the read is interrupted or returns less than the chunk due. */
  predicate LosesTurn(m: seq<byte>, limit: nat) {
    |m| == 0 || |m| == DEFAULT_BUF_SIZE || limit < Min(|m|, DEFAULT_BUF_SIZE)
  }

  lemma TalkBlocks(ms: seq<seq<byte>>, speaker: Side, limits: seq<nat>, calls: Calls)
    requires ms != [] && LosesTurn(ms[0], Limit(limits))
    ensures Talk(Reading(speaker), ms, speaker, limits, calls).blocked
  {
  }

  /** What a conversation must be for the pump to keep its turns: no message ends exactly
      where a buffer does, and each read returns the chunk due: none is interrupted, and none
      is short within a message. */
  predicate Carriable(ms: seq<seq<byte>>, limits: seq<nat>) {
    NoneFillsBuffers(ms) && Covers(limits, Dues(ms))
  }

  lemma NotCarriable(ms: seq<seq<byte>>, limits: seq<nat>)
    requires ms != [] && LosesTurn(ms[0], Limit(limits))
    ensures !Carriable(ms, limits)
  {
    NoneFillsFirst(ms);
    var due := Min(|ms[0]|, DEFAULT_BUF_SIZE);
    assert Dues(ms) == [due] + Dues(ms)[1..];
    CoversFirst(limits, due, Dues(ms)[1..]);
  }

  lemma CarriableShorter(ms: seq<seq<byte>>, limits: seq<nat>)
    requires ms != [] && 0 < |ms[0]| < DEFAULT_BUF_SIZE && Limit(limits) >= |ms[0]|
    ensures Carriable(ms, limits) <==> Carriable(ms[1..], Later(limits))
    ensures |Concat(ms)| > |Concat(ms[1..])|
  {
    NoneFillsFirst(ms);
    CoversFirst(limits, |ms[0]|, Dues(ms[1..]));
  }

  lemma CarriableLonger(ms: seq<seq<byte>>, limits: seq<nat>)
    requires ms != [] && |ms[0]| > DEFAULT_BUF_SIZE && Limit(limits) >= DEFAULT_BUF_SIZE
    ensures Carriable(ms, limits) <==> Carriable([ms[0][DEFAULT_BUF_SIZE..]] + ms[1..], Later(limits))
  {
    RestOfMessage(ms);
    CoversFirst(limits, DEFAULT_BUF_SIZE, Dues([ms[0][DEFAULT_BUF_SIZE..]] + ms[1..]));
  }

  /** The pump keeps the turns of a conversation, never reading from a side that has nothing
      to say, if and only if no message fills its buffers exactly, no read is interrupted, and
      no read is short within a message. */
  lemma {:induction false} TurnsKeptIff(ms: seq<seq<byte>>, speaker: Side, limits: seq<nat>, calls: Calls)
    ensures !Talk(Reading(speaker), ms, speaker, limits, calls).blocked <==> Carriable(ms, limits)
    decreases |Concat(ms)|, |ms|
  {
    if ms == [] {
      return;
    }
    if LosesTurn(ms[0], Limit(limits)) {
      TalkBlocks(ms, speaker, limits, calls);
      NotCarriable(ms, limits);
    } else if |ms[0]| < DEFAULT_BUF_SIZE {
      TalkShort(ms, speaker, limits, calls);
      CarriableShorter(ms, limits);
      TurnsKeptIff(ms[1..], Other(speaker), Later(limits), Carried(calls, speaker, ms[0]));
    } else {
      TalkLong(ms, speaker, limits, calls);
      RestOfMessage(ms);
      CarriableLonger(ms, limits);
      TurnsKeptIff([ms[0][DEFAULT_BUF_SIZE..]] + ms[1..], speaker, Later(limits),
                   Carried(calls, speaker, ms[0][..DEFAULT_BUF_SIZE]));
    }
  }

  /** One such conversation: a message of 500 bytes, of which the first read returns 100. */
  lemma ShortReadLosesTurn(m: seq<byte>, speaker: Side, calls: Calls)
    requires |m| == 500
    ensures NoneFillsBuffers([m]) && Talk(Reading(speaker), [m], speaker, [100], calls).blocked
    ensures !Talk(Reading(speaker), [m], speaker, [], calls).blocked
  {
    TalkBlocks([m], speaker, [100], calls);
    TurnsKeptIff([m], speaker, [], calls);
  }

  /** What taking a buffer off a longer message leaves of a conversation. */
  lemma RestOfMessage(ms: seq<seq<byte>>)
    requires ms != [] && |ms[0]| > DEFAULT_BUF_SIZE
    ensures var ms' := [ms[0][DEFAULT_BUF_SIZE..]] + ms[1..];
            && |Concat(ms')| < |Concat(ms)|
            && (NoneFillsBuffers(ms') <==> NoneFillsBuffers(ms))
            && |ms'| == |ms| && ms'[0] == ms[0][DEFAULT_BUF_SIZE..] && ms'[1..] == ms[1..]
  {
    var m := ms[0][DEFAULT_BUF_SIZE..];
    var ms' := [m] + ms[1..];
    assert ms'[0] == m && ms'[1..] == ms[1..];
    ConcatCons(m, ms[1..]);
    BufferOff(|ms[0]|);
    assert NoneFillsBuffers(ms') <==> NoneFillsBuffers(ms) by {
      NoneFillsFirst(ms);
      NoneFillsFirst(ms');
    }
  }

  lemma BufferOff(n: nat)
    requires n > DEFAULT_BUF_SIZE
    ensures (n - DEFAULT_BUF_SIZE) % DEFAULT_BUF_SIZE == n % DEFAULT_BUF_SIZE
    ensures (n - DEFAULT_BUF_SIZE) / DEFAULT_BUF_SIZE == n / DEFAULT_BUF_SIZE - 1
  {
  }

  /** When the turns are kept, each message is delivered whole to the other side, in order;
      the pump turns around once per message; and it made exactly the calls it would make
      from here, with every read answered. */
  lemma {:induction false} TurnsKeptDeliver(first: Side, ms: seq<seq<byte>>, speaker: Side, limits: seq<nat>,
                                            calls: Calls, to: Side)
    requires !Talk(Reading(speaker), ms, speaker, limits, calls).blocked
    requires State(first, calls) == Some(Reading(speaker))
    ensures var t := Talk(Reading(speaker), ms, speaker, limits, calls);
            && State(first, t.calls) == Some(t.p)
            && WrittenTo(to, t.calls) == WrittenTo(to, calls) + Said(ms, speaker, Other(to))
            && Turns(t.calls) == Turns(calls) + |ms|
    decreases |Concat(ms)|, |ms|
  {
    if ms == [] {
      assert WrittenTo(to, calls) + [] == WrittenTo(to, calls);
      return;
    }
    if LosesTurn(ms[0], Limit(limits)) {
      TalkBlocks(ms, speaker, limits, calls);
    } else if |ms[0]| < DEFAULT_BUF_SIZE {
      CarriedChunk(first, speaker, calls, ms[0], to);
      TalkShort(ms, speaker, limits, calls);
      CarriableShorter(ms, limits);
      TurnsKeptDeliver(first, ms[1..], Other(speaker), Later(limits), Carried(calls, speaker, ms[0]), to);
      Associate(WrittenTo(to, calls), if to == speaker then [] else ms[0], Said(ms[1..], Other(speaker), Other(to)));
    } else {
      var chunk, ms' := ms[0][..DEFAULT_BUF_SIZE], [ms[0][DEFAULT_BUF_SIZE..]] + ms[1..];
      CarriedChunk(first, speaker, calls, chunk, to);
      TalkLong(ms, speaker, limits, calls);
      RestOfMessage(ms);
      TurnsKeptDeliver(first, ms', speaker, Later(limits), Carried(calls, speaker, chunk), to);
      SaidRest(ms, speaker, Other(to));
      Associate(WrittenTo(to, calls), if to == speaker then [] else chunk, Said(ms', speaker, Other(to)));
    }
  }

  lemma CarriedChunk(first: Side, speaker: Side, calls: Calls, chunk: seq<byte>, to: Side)
    requires State(first, calls) == Some(Reading(speaker)) && 0 < |chunk| <= DEFAULT_BUF_SIZE
    ensures var calls' := Carried(calls, speaker, chunk);
            && State(first, calls') == Some(Reading(if |chunk| < DEFAULT_BUF_SIZE then Other(speaker) else speaker))
            && WrittenTo(to, calls') == WrittenTo(to, calls) + (if to == speaker then [] else chunk)
            && Turns(calls') == Turns(calls) + if |chunk| < DEFAULT_BUF_SIZE then 1 else 0
  {
    assert chunk[..|chunk|] == chunk;
    assert WrittenTo(to, calls) + [] == WrittenTo(to, calls);
  }

  lemma SaidRest(ms: seq<seq<byte>>, speaker: Side, side: Side)
    requires ms != [] && |ms[0]| > DEFAULT_BUF_SIZE
    ensures Said(ms, speaker, side) ==
            (if speaker == side then ms[0][..DEFAULT_BUF_SIZE] else []) +
            Said([ms[0][DEFAULT_BUF_SIZE..]] + ms[1..], speaker, side)
  {
    var ms' := [ms[0][DEFAULT_BUF_SIZE..]] + ms[1..];
    assert ms'[1..] == ms[1..];
    assert ms[0] == ms[0][..DEFAULT_BUF_SIZE] + ms'[0];
  }
}
