/** The unreliable device under the buffers, with a record of every call made to it. */
module Devices {
  import opened Bytes

  datatype ErrorKind = Interrupted | WriteZero | Other(code: int)

  /** How a call ends: a Rust `Result`, or a panic that unwinds through the caller. */
  datatype Outcome<+T> = Ok(value: T) | Err(kind: ErrorKind) | Panicked {
    predicate IsFailure() {
      !Ok?
    }

    function PropagateFailure<U>(): Outcome<U>
      requires IsFailure()
    {
      match this
      case Err(kind) => Err(kind)
      case Panicked => Panicked
    }

    function Extract(): T
      requires Ok?
    {
      value
    }
  }

  /** How a call ends, whatever it returns. */
  function Unit<T>(r: Outcome<T>): Outcome<()> {
    match r
    case Ok(_) => Ok(())
    case Err(kind) => Err(kind)
    case Panicked => Panicked
  }

  /** Whether a device write offers bytes acknowledged earlier, or bytes of the
      argument of the call in progress. */
  datatype Origin = Retained | Fresh

  /** One call to the device. `taken` counts the offered bytes the device took; `armed`
      and `retained` are the panic flag and the writer buffer at the time of the call;
      `room` is the size of the window a read was given, and `gated` marks a read issued
      behind a flush. */
  datatype Event =
    | WriteEvent(offered: seq<byte>, taken: nat, outcome: Outcome<nat>, origin: Origin,
                 armed: bool, retained: seq<byte>)
    | FlushEvent(flushed: Outcome<()>)
    | ReadEvent(got: Outcome<seq<byte>>, room: nat, gated: bool, retained: seq<byte>)

  /** Every call made to a device, latest last. */
  datatype Trace = Start | Then(earlier: Trace, latest: Event) {
    ghost function Length(): nat {
      if Start? then 0 else earlier.Length() + 1
    }
  }

  /** `t` is `t0` followed by some more calls. */
  ghost predicate Extends(t: Trace, t0: Trace) {
    t == t0 || (t.Then? && Extends(t.earlier, t0))
  }

  lemma {:induction false} ExtendsTransitive(t: Trace, t1: Trace, t0: Trace)
    requires Extends(t, t1) && Extends(t1, t0)
    ensures Extends(t, t0)
  {
    if t != t1 {
      ExtendsTransitive(t.earlier, t1, t0);
    }
  }

  lemma {:induction false} ExtendsLonger(t: Trace, t0: Trace)
    requires Extends(t, t0)
    ensures t == t0 || t.Length() > t0.Length()
    ensures t0.Then? ==> t0.Length() == t0.earlier.Length() + 1
  {
    if t != t0 {
      ExtendsLonger(t.earlier, t0);
    }
  }

  ghost predicate SameEnd<T, U>(a: Outcome<T>, b: Outcome<U>) {
    match a
    case Ok(_) => b.Ok?
    case Err(kind) => b.Err? && b.kind == kind
    case Panicked => b.Panicked?
  }

  /** Whether an operation that makes this call last can end as `r`; it goes on after a call
      only if it can end well after it. A write of retained bytes is retried, and so is a
      read, when interrupted; one that takes nothing counts as an error. */
  ghost predicate EndsAs(e: Event, r: Outcome<()>) {
    match e
    case WriteEvent(_, _, outcome, origin, _, _) =>
      if origin.Fresh? then SameEnd(outcome, r)
      else if outcome.Ok? then (if outcome.value > 0 then r.Ok? else r.Err? && r.kind.WriteZero?)
      else SameEnd(outcome, r) || (r.Ok? && outcome.Err? && outcome.kind.Interrupted?)
    case FlushEvent(flushed) => SameEnd(flushed, r)
    case ReadEvent(got, _, _, _) => SameEnd(got, r) || (r.Ok? && got.Err? && got.kind.Interrupted?)
  }

  /** An operation may go on after each of the calls from `t0` to `t`. */
  ghost predicate WentOn(t: Trace, t0: Trace, writes: bool) {
    && Extends(t, t0)
    && forall before, e :: Extends(t, Then(before, e)) && Extends(before, t0) ==>
                             EndsAs(e, Ok(())) && (writes ==> e.WriteEvent?)
  }

  /** The calls from `t0` to `t` are those of an operation that ended as `r`: it failed or panicked
      only because its last call did, and made no call after one that failed. */
  ghost predicate Ran(t: Trace, t0: Trace, r: Outcome<()>, writes: bool) {
    && Extends(t, t0)
    && if r.Ok? then WentOn(t, t0, writes)
       else t.Then? && EndsAs(t.latest, r) && (writes ==> t.latest.WriteEvent?) && WentOn(t.earlier, t0, writes)
  }

  /** Of two parts of one record one extends the other. */
  lemma {:induction false} ExtendsOrder(t: Trace, a: Trace, b: Trace)
    requires Extends(t, a) && Extends(t, b)
    ensures Extends(a, b) || Extends(b, a)
  {
    if t != a && t != b {
      ExtendsOrder(t.earlier, a, b);
    }
  }

  lemma WentOnTransitive(t: Trace, t1: Trace, t0: Trace, writes: bool)
    requires WentOn(t, t1, writes) && WentOn(t1, t0, writes)
    ensures WentOn(t, t0, writes)
  {
    ExtendsTransitive(t, t1, t0);
    forall before, e | Extends(t, Then(before, e)) && Extends(before, t0)
      ensures EndsAs(e, Ok(())) && (writes ==> e.WriteEvent?)
    {
      ExtendsOrder(t, Then(before, e), t1);
      assert Extends(before, t1) || Extends(t1, Then(before, e));
    }
  }

  lemma RanTransitive(t: Trace, t1: Trace, t0: Trace, r: Outcome<()>, writes: bool)
    requires Ran(t, t1, r, writes) && WentOn(t1, t0, writes)
    ensures Ran(t, t0, r, writes)
  {
    ExtendsTransitive(t, t1, t0);
    WentOnTransitive(if r.Ok? then t else t.earlier, t1, t0, writes);
  }

  /** One more call. */
  lemma RanOn(t: Trace, t0: Trace, e: Event, r: Outcome<()>, writes: bool)
    requires WentOn(t, t0, writes) && EndsAs(e, r) && (writes ==> e.WriteEvent?)
    ensures Ran(Then(t, e), t0, r, writes)
  {
  }

  /** No call yet. */
  lemma RanNothing(t: Trace, writes: bool)
    ensures WentOn(t, t, writes)
  {
    forall before, e | Extends(t, Then(before, e)) ensures !Extends(before, t) {
      ExtendsLonger(t, Then(before, e));
      if Extends(before, t) {
        ExtendsLonger(before, t);
      }
    }
  }

  /** An interrupted read may be tried again. */
  lemma RanAgain(t: Trace, t0: Trace, r: Outcome<()>)
    requires Ran(t, t0, r, false) && OnlyReadsSince(t, t0) && r.Err? && r.kind.Interrupted?
    ensures WentOn(t, t0, false)
  {
    OnlyReadsLast(t, t0);
    RanOn(t.earlier, t0, t.latest, Ok(()), false);
  }

  lemma OnlyReadsLast(t: Trace, t0: Trace)
    requires OnlyReadsSince(t, t0) && t.Then? && Extends(t.earlier, t0)
    ensures t.latest.ReadEvent?
  {
    ExtendsLonger(t.earlier, t0);
  }

  function Taken(e: Event): seq<byte> {
    if e.WriteEvent? && e.taken <= |e.offered| then e.offered[..e.taken] else []
  }

  /** Everything the device took, in order. */
  ghost function Delivered(t: Trace): seq<byte> {
    match t
    case Start => []
    case Then(earlier, latest) => Delivered(earlier) + Taken(latest)
  }

  /** The device never gives back what it took. */
  lemma {:induction false} DeliveredGrows(t: Trace, t0: Trace)
    requires Extends(t, t0)
    ensures Delivered(t0) <= Delivered(t)
  {
    if t != t0 {
      DeliveredGrows(t.earlier, t0);
    }
  }

  /** How many writes offered bytes of a call's own argument. */
  ghost function FreshWrites(t: Trace): nat {
    match t
    case Start => 0
    case Then(earlier, latest) =>
      FreshWrites(earlier) + if latest.WriteEvent? && latest.origin.Fresh? then 1 else 0
  }

  /** The latest call is a flush that succeeded. */
  ghost predicate Synced(t: Trace) {
    t.Then? && t.latest.FlushEvent? && t.latest.flushed.Ok?
  }

  /** The latest call other than a read is a flush that succeeded. */
  ghost predicate Quiet(t: Trace) {
    match t
    case Start => false
    case Then(earlier, latest) =>
      if latest.ReadEvent? then Quiet(earlier) else Synced(t)
  }

  /** What must hold of a call given the calls before it: a write that could panic leaves
      nothing for the destructor to offer again, new bytes never overtake retained ones,
      and a gated read finds everything flushed. */
  ghost predicate Permitted(e: Event, before: Trace) {
    match e
    case WriteEvent(offered, taken, outcome, origin, armed, retained) =>
      && taken <= |offered|
      && (outcome.Ok? ==> taken == outcome.value)
      && (armed || retained == [])
      && (if origin.Fresh? then retained == [] else IsSuffix(offered, retained))
    case FlushEvent(_) => true
    case ReadEvent(_, _, gated, retained) => gated ==> retained == [] && Quiet(before)
  }

  /** Every call in the record was permitted, whenever it was made. */
  ghost predicate Disciplined(t: Trace) {
    forall before, e :: Extends(t, Then(before, e)) ==> Permitted(e, before)
  }

  lemma DisciplineGrows(t: Trace, e: Event)
    requires Disciplined(t) && Permitted(e, t)
    ensures Disciplined(Then(t, e))
  {
  }

  /** Every read since `t0` was gated. */
  ghost predicate ReadsGated(t: Trace, t0: Trace) {
    t == t0 || (t.Then? && (t.latest.ReadEvent? ==> t.latest.gated) && ReadsGated(t.earlier, t0))
  }

  lemma {:induction false} ReadsGatedTransitive(t: Trace, t1: Trace, t0: Trace)
    requires ReadsGated(t, t1) && ReadsGated(t1, t0)
    ensures ReadsGated(t, t0) && Extends(t, t0)
  {
    if t != t1 {
      ReadsGatedTransitive(t.earlier, t1, t0);
    } else if t1 != t0 {
      ReadsGatedTransitive(t.earlier, t.earlier, t0);
    }
  }

  lemma {:induction false} ReadSinceIsGated(t: Trace, t0: Trace, before: Trace, e: Event)
    requires ReadsGated(t, t0) && Extends(t, Then(before, e)) && Extends(before, t0) && e.ReadEvent?
    ensures e.gated
    decreases t
  {
    if t == t0 {
      ExtendsLonger(before, t0);
      ExtendsLonger(t, Then(before, e));
      assert false;
    } else if t != Then(before, e) {
      ReadSinceIsGated(t.earlier, t0, before, e);
    }
  }

  ghost predicate OnlyReadsSince(t: Trace, t0: Trace) {
    t == t0 || (t.Then? && t.latest.ReadEvent? && OnlyReadsSince(t.earlier, t0))
  }

  lemma {:induction false} ReadsTransitive(t: Trace, t1: Trace, t0: Trace)
    requires OnlyReadsSince(t, t1) && OnlyReadsSince(t1, t0)
    ensures OnlyReadsSince(t, t0)
  {
    if t != t1 {
      ReadsTransitive(t.earlier, t1, t0);
    }
  }

  lemma {:induction false} ReadsKeep(t: Trace, t0: Trace)
    requires OnlyReadsSince(t, t0)
    ensures Extends(t, t0) && Delivered(t) == Delivered(t0) && FreshWrites(t) == FreshWrites(t0)
    ensures Quiet(t0) ==> Quiet(t)
  {
    if t != t0 {
      ReadsKeep(t.earlier, t0);
    }
  }

  /** Where the record is quiet a flush succeeded earlier, with only reads in between. */
  lemma {:induction false} QuietSinceFlush(t: Trace) returns (t0: Trace)
    requires Quiet(t)
    ensures Synced(t0) && OnlyReadsSince(t, t0)
  {
    if t.latest.ReadEvent? {
      t0 := QuietSinceFlush(t.earlier);
    } else {
      t0 := t;
    }
  }

  /** A gated read, whenever it was made, follows a flush that succeeded with nothing but
      reads in between, and finds the writer buffer empty. */
  lemma GatedReadFollowsFlush(t: Trace, before: Trace, e: Event) returns (t0: Trace)
    requires Disciplined(t) && Extends(t, Then(before, e)) && e.ReadEvent? && e.gated
    ensures e.retained == [] && Synced(t0) && OnlyReadsSince(before, t0)
  {
    t0 := QuietSinceFlush(before);
  }

  /** The device. Every call may succeed in part, fail or panic; `patience` bounds how many
      more times it answers `Interrupted`, and can start at any number. */
  class Device {
    ghost var trace: Trace
    ghost var received: seq<byte>
    var input: seq<byte>
    var patience: nat
    const vectored: bool

    constructor (input: seq<byte>, patience: nat, vectored: bool)
      ensures Valid() && trace == Start && received == []
      ensures this.input == input && this.patience == patience && this.vectored == vectored
    {
      this.input, this.patience, this.vectored := input, patience, vectored;
      trace, received := Start, [];
    }

    ghost predicate Valid()
      reads this
    {
      Delivered(trace) == received
    }

    ghost method Record(e: Event)
      requires Valid()
      modifies `trace, `received
      ensures Valid() && trace == Then(old(trace), e)
      ensures received == old(received) + Taken(e)
    {
      trace := Then(trace, e);
      received := received + Taken(e);
    }

    /** An error kind; `Interrupted` only while patience lasts. */
    method Fail() returns (kind: ErrorKind)
      modifies `patience
      ensures patience <= old(patience)
      ensures kind.Interrupted? ==> patience < old(patience)
    {
      kind :| true;
      if kind.Interrupted? {
        if patience == 0 {
          kind := WriteZero;
        } else {
          patience := patience - 1;
        }
      }
    }

    /** Takes the first `n` bytes and says so, or fails taking nothing, or panics having
        taken some. */
    method Write(buf: seq<byte>, ghost origin: Origin, ghost armed: bool, ghost retained: seq<byte>)
      returns (r: Outcome<nat>, ghost taken: nat)
      requires Valid()
      modifies `trace, `received, `patience
      ensures Valid()
      ensures taken <= |buf| && (r.Ok? ==> taken == r.value) && (r.Err? ==> taken == 0)
      ensures trace == Then(old(trace), WriteEvent(buf, taken, r, origin, armed, retained))
      ensures received == old(received) + buf[..taken]
      ensures patience <= old(patience)
      ensures r == Err(Interrupted) ==> patience < old(patience)
    {
      var n: nat :| n <= |buf|;
      taken := n;
      if * {
        r := Ok(n);
      } else if * {
        var kind := Fail();
        r, taken := Err(kind), 0;
      } else {
        r := Panicked;
      }
      Record(WriteEvent(buf, taken, r, origin, armed, retained));
    }

    /** Takes everything, or fails or panics having taken some prefix. */
    method WriteAll(buf: seq<byte>, ghost origin: Origin, ghost armed: bool, ghost retained: seq<byte>)
      returns (r: Outcome<()>, ghost taken: nat)
      requires Valid()
      modifies `trace, `received, `patience
      ensures Valid()
      ensures taken <= |buf| && (r.Ok? ==> taken == |buf|)
      ensures trace == Then(old(trace), WriteEvent(buf, taken, Counted(r, |buf|), origin, armed, retained))
      ensures received == old(received) + buf[..taken]
      ensures patience <= old(patience)
    {
      taken :| taken <= |buf|;
      if * {
        r, taken := Ok(()), |buf|;
      } else if * {
        var kind := Fail();
        r := Err(kind);
      } else {
        r := Panicked;
      }
      Record(WriteEvent(buf, taken, Counted(r, |buf|), origin, armed, retained));
    }

    /** Takes the first `n` bytes of the slices laid end to end. */
    method WriteVectored(bufs: seq<seq<byte>>, ghost origin: Origin, ghost armed: bool,
                         ghost retained: seq<byte>)
      returns (r: Outcome<nat>, ghost taken: nat)
      requires Valid()
      modifies `trace, `received, `patience
      ensures Valid()
      ensures taken <= |Concat(bufs)| && (r.Ok? ==> taken == r.value) && (r.Err? ==> taken == 0)
      ensures trace == Then(old(trace), WriteEvent(Concat(bufs), taken, r, origin, armed, retained))
      ensures received == old(received) + Concat(bufs)[..taken]
      ensures patience <= old(patience)
    {
      r, taken := Write(Concat(bufs), origin, armed, retained);
    }

    method Flush() returns (r: Outcome<()>)
      requires Valid()
      modifies `trace, `received, `patience
      ensures Valid()
      ensures trace == Then(old(trace), FlushEvent(r))
      ensures received == old(received)
      ensures patience <= old(patience)
    {
      if * {
        r := Ok(());
      } else if * {
        var kind := Fail();
        r := Err(kind);
      } else {
        r := Panicked;
      }
      Record(FlushEvent(r));
    }

    /** Fills some of a window of `room` bytes; nothing in a window with room only at the
        end of the input. */
    method Read(room: nat, ghost gated: bool, ghost retained: seq<byte>)
      returns (r: Outcome<seq<byte>>)
      requires Valid()
      modifies `trace, `received, `patience, `input
      ensures Valid()
      ensures r.Ok? ==> |r.value| <= room && old(input) == r.value + input
      ensures r.Ok? && r.value == [] && room > 0 ==> input == []
      ensures !r.Ok? ==> input == old(input)
      ensures trace == Then(old(trace), ReadEvent(r, room, gated, retained))
      ensures received == old(received)
      ensures patience <= old(patience)
      ensures r == Err(Interrupted) ==> patience < old(patience)
    {
      if * {
        var n: nat :| n <= room && n <= |input| && (n == 0 ==> room == 0 || input == []) by {
          assert Min(room, |input|) <= room && Min(room, |input|) <= |input|;
        }
        r, input := Ok(input[..n]), input[n..];
      } else if * {
        var kind := Fail();
        r := Err(kind);
      } else {
        r := Panicked;
      }
      Record(ReadEvent(r, room, gated, retained));
    }
  }

  /** A `write_all` that succeeds took the whole argument. */
  function Counted(r: Outcome<()>, whole: nat): Outcome<nat> {
    match r
    case Ok(_) => Ok(whole)
    case Err(kind) => Err(kind)
    case Panicked => Panicked
  }
}
