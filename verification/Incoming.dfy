/** The incoming half of the buffers as a value, and what each operation on it promises. */
module Incoming {
  import opened Bytes
  import opened Devices

  /** What is buffered, what the device has yet to give, and the buffer's capacity. */
  datatype In = In(buffered: seq<byte>, input: seq<byte>, capacity: nat) {
    /** The incoming stream not yet handed out. */
    ghost function Stream(): seq<byte> {
      buffered + input
    }
  }

  /** A read that hands out `given`: what it hands out followed by what remains is the stream,
      and it hands out nothing only when it has no room, fails, or is at the end. */
  ghost predicate Took(s: In, room: nat, given: seq<byte>, end: Outcome<()>, s': In) {
    && s'.capacity == s.capacity
    && s.Stream() == given + s'.Stream() && |given| <= room
    && (!end.Ok? ==> given == [])
    && (end.Ok? && given == [] && room > 0 ==> s'.Stream() == [])
  }

  /** One device read, with a window of `room` bytes, that got the bytes `got` and ended as `end`. */
  ghost predicate Called(t0: Trace, room: nat, got: seq<byte>, end: Outcome<()>, t: Trace) {
    && t.Then? && t.earlier == t0
    && t.latest.ReadEvent? && t.latest.room == room
    && SameEnd(t.latest.got, end) && got == Handed(t.latest.got)
  }

  /** Which way a read goes, and how much it hands out. With bytes buffered it hands out as many
      of them as fit and makes no call. Otherwise it makes one: with the caller's room when
      that is no smaller than the buffer, else to fill the buffer, and hands out as much of
      the answer as fits. */
  ghost predicate ReadWay(s: In, room: nat, t0: Trace, given: seq<byte>, end: Outcome<()>, t: Trace) {
    if s.buffered != [] then t == t0 && end.Ok? && given == s.buffered[..Min(room, |s.buffered|)]
    else if room >= s.capacity then Called(t0, room, given, end, t)
    else
      && t.Then? && t.latest.ReadEvent?
      && var got := Handed(t.latest.got);
      && Called(t0, s.capacity, got, end, t) && given == got[..Min(room, |got|)]
  }

  /** A read through a delimiter. A failure may come after it has handed out a part of the
      stream that has no delimiter. */
  ghost predicate TookThrough(s: In, delim: byte, given: seq<byte>, end: Outcome<()>, s': In) {
    && s'.capacity == s.capacity
    && s.Stream() == given + s'.Stream()
    && (end.Ok? ==> given == if s.capacity > 0 then Through(delim, s.Stream()) else [])
    && (!end.Ok? ==> delim !in given)
  }

  /** Filling the buffer shows what it holds; it changes nothing that is buffered. */
  ghost predicate Filled(s: In, view: Outcome<seq<byte>>, s': In) {
    && s'.capacity == s.capacity && s'.Stream() == s.Stream()
    && (s.buffered != [] ==> s' == s && view.Ok?)
    && (!view.Ok? ==> s' == s)
    && (view.Ok? ==> view.value == s'.buffered && (view.value == [] && s.capacity > 0 ==> s'.Stream() == []))
  }

  lemma Refills(s: In, bytes: seq<byte>, s': In)
    requires s.buffered == [] && s.input == bytes + s'.input && (bytes == [] ==> s.capacity == 0 || s.input == [])
    requires s'.buffered == bytes && s'.capacity == s.capacity
    ensures Filled(s, Ok(bytes), s')
  {
    assert s.Stream() == s.input;
  }

  /** Consuming takes bytes from the front of the buffer, at most all of them. */
  ghost predicate Consumed(s: In, amount: nat, given: seq<byte>, s': In) {
    && given == s.buffered[..Min(amount, |s.buffered|)]
    && s' == s.(buffered := s.buffered[|given|..])
  }

  lemma ConsumedKeeps(s: In, amount: nat, given: seq<byte>, s': In)
    requires Consumed(s, amount, given, s')
    ensures s.Stream() == given + s'.Stream()
  {
    assert s.buffered == given + s'.buffered;
  }

  /** The bytes a read hands out. */
  function Handed(r: Outcome<seq<byte>>): seq<byte> {
    if r.Ok? then r.value else []
  }

  /** A read past an empty buffer. */
  lemma TookAround(s: In, room: nat, r: Outcome<seq<byte>>, s': In)
    requires s.buffered == [] && s'.buffered == [] && s'.capacity == s.capacity
    requires s.input == Handed(r) + s'.input && |Handed(r)| <= room
    requires r.Ok? && r.value == [] ==> room == 0 || s'.input == []
    ensures Took(s, room, Handed(r), Unit(r), s')
  {
    assert s.Stream() == s.input && s'.Stream() == s'.input;
  }

  lemma FillFails(s: In, view: Outcome<seq<byte>>, room: nat, s': In)
    requires Filled(s, view, s') && !view.Ok?
    ensures Took(s, room, [], Unit(view), s')
  {
    assert [] + s'.Stream() == s'.Stream();
  }

  /** The buffer filled and then consumed is a read. */
  lemma FilledThenConsumed(s: In, view: Outcome<seq<byte>>, s1: In, room: nat, size: nat, given: seq<byte>, s': In)
    requires Filled(s, view, s1) && view.Ok? && size == Min(|view.value|, room) && Consumed(s1, size, given, s')
    requires s.buffered == [] ==> room < s.capacity
    ensures Took(s, room, given, Ok(()), s') && given == view.value[..size]
  {
    ConsumedKeeps(s1, size, given, s');
    if given == [] && room > 0 {
      assert s1.buffered == [] && s'.buffered == [];
    }
  }

  lemma TookNothing(s: In, room: nat, end: Outcome<()>)
    requires !end.Ok?
    ensures Took(s, room, [], end, s) && forall delim :: TookThrough(s, delim, [], end, s)
  {
    assert [] + s.Stream() == s.Stream();
  }

  /** A piece of the stream: through the delimiter if it has it, and empty only at the end or
      without a buffer. */
  ghost predicate TookPiece(s: In, delim: byte, r: Outcome<seq<byte>>, s': In) {
    && s'.capacity == s.capacity && s.Stream() == Handed(r) + s'.Stream()
    && (delim in Handed(r) ==> Handed(r) == Through(delim, s.Stream()))
    && (r.Ok? && r.value == [] && s.capacity > 0 ==> s'.Stream() == [])
    && (s.capacity == 0 ==> Handed(r) == [])
  }

  /** What a buffer that was filled by `view` shows of the way. */
  lemma PieceGoes(s: In, delim: byte, t0: Trace, view: Outcome<seq<byte>>, t: Trace, s1: In, given: seq<byte>, s': In)
    requires Filled(s, view, s1) && FillWay(s, t0, view, t) && view.Ok?
    requires Consumed(s1, |Through(delim, view.value)|, given, s')
    ensures PieceWay(s, delim, t0, Ok(given), t, s')
  {
  }

  /** How a buffer is filled: without a call, or by one call for the whole buffer. */
  ghost predicate FillWay(s: In, t0: Trace, view: Outcome<seq<byte>>, t: Trace) {
    if s.buffered != [] then t == t0 else Called(t0, s.capacity, Handed(view), Unit(view), t)
  }

  lemma PieceConsumed(s: In, view: seq<byte>, s1: In, delim: byte, given: seq<byte>, s': In)
    requires Filled(s, Ok(view), s1) && Consumed(s1, |Through(delim, view)|, given, s') && |view| <= s.capacity
    ensures given == Through(delim, view) && TookPiece(s, delim, Ok(given), s')
  {
    ConsumedKeeps(s1, |given|, given, s');
    ThroughPart(delim, view, s1.Stream());
    if given == [] {
      assert view == [];
    }
  }

  /** On the way through a stream to a delimiter: `got` is behind and has none. */
  ghost predicate TakingThrough(s: In, delim: byte, got: seq<byte>, s': In) {
    && s'.capacity == s.capacity && s.Stream() == got + s'.Stream() && delim !in got
    && (s.capacity == 0 ==> got == [])
  }

  /** One more piece: the search is over once it has the delimiter or is empty. */
  lemma PieceTaken(s: In, delim: byte, got: seq<byte>, s1: In, r: Outcome<seq<byte>>, s': In)
    requires TakingThrough(s, delim, got, s1) && TookPiece(s1, delim, r, s') && r.Ok?
    ensures if delim !in r.value && r.value != []
            then TakingThrough(s, delim, got + r.value, s') && |s'.Stream()| < |s1.Stream()|
            else TookThrough(s, delim, got + r.value, Ok(()), s')
  {
    Associate(got, r.value, s'.Stream());
    if s.capacity > 0 && (delim in r.value || r.value == []) {
      PieceEndsSearch(delim, got, r.value, s'.Stream());
    }
  }

  /** A failure hands nothing out: the search may be resumed or given up. */
  lemma PieceFails(s: In, delim: byte, got: seq<byte>, s1: In, r: Outcome<seq<byte>>, s': In)
    requires TakingThrough(s, delim, got, s1) && TookPiece(s1, delim, r, s') && !r.Ok?
    ensures TakingThrough(s, delim, got, s') && |s'.Stream()| == |s1.Stream()|
    ensures TookThrough(s, delim, got, Unit(r), s')
  {
    assert [] + s'.Stream() == s'.Stream();
  }

  /** What the reads made from `t0` to `t` got, in order. */
  ghost function Answered(t: Trace, t0: Trace): seq<byte> {
    if t == t0 || t.Start? then []
    else Answered(t.earlier, t0) + if t.latest.ReadEvent? then Handed(t.latest.got) else []
  }

  /** The last of the calls found the end of the input. */
  ghost predicate EndSeen(t: Trace, t0: Trace) {
    t != t0 && t.Then? && t.latest.ReadEvent? && t.latest.got.Ok? && t.latest.got.value == []
  }

  /** Each call from `t0` to `t` is a read to fill the whole buffer, made only when neither what was
      buffered nor what earlier reads got has the delimiter, and none has found the end. */
  ghost predicate Wanted(s: In, delim: byte, t0: Trace, t: Trace) {
    && Extends(t, t0)
    && forall before, e :: Extends(t, Then(before, e)) && Extends(before, t0) ==>
                             && e.ReadEvent? && e.room == s.capacity
                             && delim !in s.buffered + Answered(before, t0) && !EndSeen(before, t0)
  }

  lemma WantedNothing(s: In, delim: byte, t: Trace)
    ensures Wanted(s, delim, t, t)
  {
    forall before, e | Extends(t, Then(before, e)) ensures !Extends(before, t) {
      ExtendsLonger(t, Then(before, e));
      if Extends(before, t) {
        ExtendsLonger(before, t);
      }
    }
  }

  lemma WantedOn(s: In, delim: byte, t0: Trace, t: Trace, e: Event)
    requires Wanted(s, delim, t0, t) && e.ReadEvent? && e.room == s.capacity
    requires delim !in s.buffered + Answered(t, t0) && !EndSeen(t, t0)
    ensures Wanted(s, delim, t0, Then(t, e))
    ensures Answered(Then(t, e), t0) == Answered(t, t0) + Handed(e.got)
  {
    ExtendsLonger(t, t0);
  }

  /** How a read through a delimiter goes: it calls the device only as long as it has to, not at
      all when the delimiter is buffered; it ends at the delimiter or at the end of the input,
      or as its last call did, and hands out just what it has found by then. */
  ghost predicate UntilWay(s: In, delim: byte, t0: Trace, given: seq<byte>, end: Outcome<()>, t: Trace) {
    var found := s.buffered + Answered(t, t0);
    && Wanted(s, delim, t0, t)
    && (delim in s.buffered ==> end.Ok? && t == t0)
    && given == (if end.Ok? then Through(delim, found) else found)
    && (end.Ok? ==> delim in found || EndSeen(t, t0))
  }

  /** How one piece is got: from the buffer without a call, or else from one call for the whole
      buffer. */
  ghost predicate PieceWay(s: In, delim: byte, t0: Trace, r: Outcome<seq<byte>>, t: Trace, s': In) {
    if s.buffered != [] then
      && t == t0 && r.Ok? && r.value == Through(delim, s.buffered)
      && s'.buffered == s.buffered[|r.value|..]
    else
      && t.Then? && t.latest.ReadEvent?
      && var got := Handed(t.latest.got);
      && Called(t0, s.capacity, got, Unit(r), t)
      && if r.Ok? then r.value == Through(delim, got) && s'.buffered == got[|r.value|..] else s'.buffered == []
  }

  /** While the search goes on: nothing has been done yet, or all that was buffered and all that
      the reads got is behind. */
  ghost predicate OnTheWay(s: In, delim: byte, t0: Trace, got: seq<byte>, t: Trace, s': In) {
    && Wanted(s, delim, t0, t) && !EndSeen(t, t0) && delim !in got
    && if s'.buffered != [] then t == t0 && got == [] && s'.buffered == s.buffered
       else got == s.buffered + Answered(t, t0)
  }

  lemma WayStarts(s: In, delim: byte, t0: Trace)
    ensures OnTheWay(s, delim, t0, [], t0, s)
  {
    WantedNothing(s, delim, t0);
  }

  lemma BufferedPiece(s: In, delim: byte, t0: Trace, got: seq<byte>, s1: In, r: Outcome<seq<byte>>, t: Trace, s': In)
    requires OnTheWay(s, delim, t0, got, t0, s1) && s1.buffered != [] && PieceWay(s1, delim, t0, r, t, s')
    ensures r.value != [] && t == t0
    ensures if delim in r.value then UntilWay(s, delim, t0, got + r.value, Ok(()), t)
            else OnTheWay(s, delim, t0, got + r.value, t, s')
  {
    assert s.buffered + Answered(t0, t0) == s.buffered;
    assert got + r.value == r.value;
  }

  lemma CalledPiece(s: In, delim: byte, t0: Trace, got: seq<byte>, t1: Trace, s1: In, r: Outcome<seq<byte>>, t: Trace,
                    s': In)
    requires OnTheWay(s, delim, t0, got, t1, s1) && s1.buffered == [] && s1.capacity == s.capacity
    requires PieceWay(s1, delim, t1, r, t, s')
    ensures if !r.Ok? then UntilWay(s, delim, t0, got, Unit(r), t) && OnTheWay(s, delim, t0, got, t, s')
            else if delim in r.value || r.value == [] then UntilWay(s, delim, t0, got + r.value, Ok(()), t)
            else OnTheWay(s, delim, t0, got + r.value, t, s')
  {
    var answer := Handed(t.latest.got);
    WantedOn(s, delim, t0, t1, t.latest);
    Associate(s.buffered, Answered(t1, t0), answer);
    assert s.buffered + Answered(t, t0) == got + answer;
    ThroughResumes(delim, got, answer);
    AddNothing(got);
    NewLonger(t1, t0, t);
  }

  ghost predicate Searching(s: In, delim: byte, t0: Trace, got: seq<byte>, t: Trace, s': In) {
    TakingThrough(s, delim, got, s') && OnTheWay(s, delim, t0, got, t, s')
  }

  ghost predicate Searched(s: In, delim: byte, t0: Trace, given: seq<byte>, end: Outcome<()>, t: Trace, s': In) {
    TookThrough(s, delim, given, end, s') && UntilWay(s, delim, t0, given, end, t)
  }

  lemma SearchStarts(s: In, delim: byte, t0: Trace)
    ensures Searching(s, delim, t0, [], t0, s)
  {
    WayStarts(s, delim, t0);
    assert [] + s.Stream() == s.Stream();
  }

  /** One more piece: the search is over once it has the delimiter or is empty; a failure ends it,
      or leaves it where it was. */
  lemma SearchGoesOn(s: In, delim: byte, t0: Trace, got: seq<byte>, t1: Trace, s1: In, r: Outcome<seq<byte>>, t: Trace,
                     s': In)
    requires Searching(s, delim, t0, got, t1, s1)
    requires TookPiece(s1, delim, r, s') && PieceWay(s1, delim, t1, r, t, s')
    ensures if !r.Ok? then
              && Searched(s, delim, t0, got, Unit(r), t, s') && Searching(s, delim, t0, got, t, s')
              && |s'.Stream()| == |s1.Stream()|
            else if delim in r.value || r.value == [] then Searched(s, delim, t0, got + r.value, Ok(()), t, s')
            else Searching(s, delim, t0, got + r.value, t, s') && |s'.Stream()| < |s1.Stream()|
  {
    if s1.buffered != [] {
      BufferedPiece(s, delim, t0, got, s1, r, t, s');
    } else {
      CalledPiece(s, delim, t0, got, t1, s1, r, t, s');
    }
    if r.Ok? {
      PieceTaken(s, delim, got, s1, r, s');
    } else {
      PieceFails(s, delim, got, s1, r, s');
    }
  }

  lemma NewLonger(t1: Trace, t0: Trace, t: Trace)
    requires Extends(t1, t0) && t.Then? && t.earlier == t1
    ensures t != t0
  {
    ExtendsLonger(t1, t0);
  }
}
