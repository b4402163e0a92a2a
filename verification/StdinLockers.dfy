/** The claim on the process' standard input: an atomic flag, and a parked thread that holds
    the standard library's lock until the claim is given up. */
module StdinLockers {
  import opened Bytes

  /** The locker thread: before it has the lock, holding it (parked, or about to park), and
      ended with the lock released. */
  datatype Thread = Starting | Locked | Ended

  /** A would-be holder of the claim. `token` is the parker's token: unparking leaves it, and
      parking returns once it is there, even if it was left before. */
  datatype Client =
    | Idle
    | Claiming
    | Holding(thread: Thread, token: bool)
    | Dropping(thread: Thread, token: bool)
    | Releasing

  datatype Lock = Free | Outside | HeldFor(client: nat)

  /** `claimed` is the static flag; `lost` records that a spawn has failed. */
  datatype State = State(claimed: bool, lock: Lock, clients: seq<Client>, lost: bool)

  datatype Act = Claim | Spawn | SpawnFails | StartDrop | Acquire | Unpark | Join | Clear

  /** What a client or its thread does, or someone else who uses standard input. */
  datatype Event = By(i: nat, act: Act) | OutsideLocks | OutsideUnlocks

  datatype Result = Refused | Stuck | Went(s: State)

  predicate HasThread(c: Client) {
    c.Holding? || c.Dropping?
  }

  function With(s: State, i: nat, c: Client): State
    requires i < |s.clients|
  {
    s.(clients := s.clients[i := c])
  }

  /** One step of a client or of its thread. A claim that finds the flag set is refused. */
  function Acts(s: State, i: nat, act: Act): Result
    requires i < |s.clients|
  {
    var c := s.clients[i];
    match act
    case Claim =>
      if !c.Idle? then Stuck else if s.claimed then Refused else Went(With(s.(claimed := true), i, Claiming))
    case Spawn => if c.Claiming? then Went(With(s, i, Holding(Starting, false))) else Stuck
    case SpawnFails => if c.Claiming? then Went(With(s.(lost := true), i, Idle)) else Stuck
    case StartDrop => if c.Holding? then Went(With(s, i, Dropping(c.thread, true))) else Stuck
    case Acquire =>
      if HasThread(c) && c.thread.Starting? && s.lock.Free?
      then Went(With(s.(lock := HeldFor(i)), i, c.(thread := Locked))) else Stuck
    case Unpark =>
      if HasThread(c) && c.thread.Locked? && c.token
      then Went(With(s.(lock := Free), i, c.(thread := Ended, token := false))) else Stuck
    case Join => if c.Dropping? && c.thread.Ended? then Went(With(s, i, Releasing)) else Stuck
    case Clear => if c.Releasing? then Went(With(s.(claimed := false), i, Idle)) else Stuck
  }

  function Next(s: State, e: Event): Result {
    match e
    case OutsideLocks => if s.lock.Free? then Went(s.(lock := Outside)) else Stuck
    case OutsideUnlocks => if s.lock.Outside? then Went(s.(lock := Free)) else Stuck
    case By(i, act) => if i < |s.clients| then Acts(s, i, act) else Stuck
  }

  function Init(n: nat): State {
    State(false, Free, seq(n, _ => Idle), false)
  }

  /** A run; a refused claim changes nothing. */
  function Exec(s: State, es: seq<Event>): (r: Result)
    ensures !r.Refused?
    decreases |es|
  {
    if es == [] then Went(s)
    else
      match Next(s, es[0])
      case Refused => Exec(s, es[1..])
      case Stuck => Stuck
      case Went(s') => Exec(s', es[1..])
  }

  /** The inductive invariant: `active` is the only client that is not idle, the flag is set
      for it or lost, the lock is held for it exactly while its thread has it, and its thread
      ends only after it was unparked. */
  ghost predicate Inv(s: State, active: Option<nat>) {
    && (forall i :: 0 <= i < |s.clients| ==> (s.clients[i].Idle? <==> active != Some(i)))
    && s.claimed == (active.Some? || s.lost) && !(active.Some? && s.lost)
    && (s.lock.HeldFor? ==> active == Some(s.lock.client))
    && (active.Some? ==>
          && active.value < |s.clients|
          && var c := s.clients[active.value];
          && (s.lock.HeldFor? <==> HasThread(c) && c.thread.Locked?)
          && (c.Holding? ==> !c.token && !c.thread.Ended?)
          && (c.Dropping? ==> (c.token <==> !c.thread.Ended?)))
  }

  lemma NextInv(s: State, active: Option<nat>, e: Event) returns (active': Option<nat>)
    requires Inv(s, active) && Next(s, e).Went?
    ensures Inv(Next(s, e).s, active') && |Next(s, e).s.clients| == |s.clients|
  {
    active' := active;
    if e.By? {
      if e.act.Claim? {
        active' := Some(e.i);
      } else if e.act.SpawnFails? || e.act.Clear? {
        active' := None;
      }
    }
  }

  lemma {:induction false} ExecInv(s: State, active: Option<nat>, es: seq<Event>) returns (active': Option<nat>)
    requires Inv(s, active) && Exec(s, es).Went?
    ensures Inv(Exec(s, es).s, active') && |Exec(s, es).s.clients| == |s.clients|
    decreases |es|
  {
    if es == [] {
      active' := active;
    } else if Next(s, es[0]).Went? {
      var next := NextInv(s, active, es[0]);
      active' := ExecInv(Next(s, es[0]).s, next, es[1..]);
    } else {
      active' := ExecInv(s, active, es[1..]);
    }
  }

  /** Over every interleaving of any number of clients, their threads and outside users: at
      most one client has the claim or a thread, the lock is held for a client exactly while
      its thread has it, and when the flag is clear no thread exists and the lock is not held
      for anyone. */
  lemma ClaimIsExclusive(n: nat, es: seq<Event>, i: nat, j: nat)
    requires Exec(Init(n), es).Went? && i < n && j < n
    ensures var s := Exec(Init(n), es).s;
            && |s.clients| == n
            && (!s.clients[i].Idle? && !s.clients[j].Idle? ==> i == j)
            && (HasThread(s.clients[i]) && s.clients[i].thread.Locked? <==> s.lock == HeldFor(i))
            && (s.clients[i].Releasing? ==> !s.lock.HeldFor?)
            && (!s.claimed ==> !s.lock.HeldFor? && s.clients[i].Idle?)
  {
    var active := ExecInv(Init(n), None, es);
  }

  /** What is left to do of giving up a claim. */
  function DropWork(c: Client): nat {
    match c
    case Dropping(Starting, _) => 4
    case Dropping(Locked, _) => 3
    case Dropping(Ended, _) => 2
    case Releasing => 1
    case _ => 0
  }

  /** Giving up a claim can always go on, unless an outside user has the lock: even when the
      thread had not parked, or had not even got the lock, when it was unparked. */
  lemma DropGoesOn(s: State, i: nat) returns (e: Event)
    requires Inv(s, Some(i)) && DropWork(s.clients[i]) > 0
    ensures Next(s, e).Went?
    ensures if s.lock.Outside? && s.clients[i] == Dropping(Starting, true) then e == OutsideUnlocks
            else DropWork(Next(s, e).s.clients[i]) < DropWork(s.clients[i])
  {
    match s.clients[i]
    case Dropping(Starting, _) => e := if s.lock.Outside? then OutsideUnlocks else By(i, Acquire);
    case Dropping(Locked, _) => e := By(i, Unpark);
    case Dropping(Ended, _) => e := By(i, Join);
    case Releasing => e := By(i, Clear);
  }

  /** Nobody's step sets a drop back, each step of its own brings it on, and when it is over
      the flag is clear. */
  lemma {:induction false} DropNeverSetBack(s: State, e: Event, i: nat)
    requires Inv(s, Some(i)) && DropWork(s.clients[i]) > 0 && Next(s, e).Went?
    ensures var s' := Next(s, e).s;
            && |s'.clients| == |s.clients|
            && DropWork(s'.clients[i]) <= DropWork(s.clients[i])
            && (e.By? && e.i == i ==> DropWork(s'.clients[i]) < DropWork(s.clients[i]))
            && if DropWork(s'.clients[i]) == 0 then s'.clients[i].Idle? && !s'.claimed else Inv(s', Some(i))
  {
    var active := NextInv(s, Some(i), e);
  }

  /** Left to itself, with the outside user letting go, a drop finishes in at most five steps;
      the claim is then free. */
  lemma {:induction false} DropFinishes(s: State, i: nat) returns (es: seq<Event>)
    requires Inv(s, Some(i)) && DropWork(s.clients[i]) > 0
    ensures Exec(s, es).Went? && |es| <= DropWork(s.clients[i]) + if s.lock.Outside? then 1 else 0
    ensures |Exec(s, es).s.clients| == |s.clients|
    ensures Exec(s, es).s.clients[i].Idle? && !Exec(s, es).s.claimed
    decreases DropWork(s.clients[i]), s.lock.Outside?
  {
    var e := DropGoesOn(s, i);
    var s' := Next(s, e).s;
    DropNeverSetBack(s, e, i);
    if DropWork(s'.clients[i]) == 0 {
      es := [e];
      assert Exec(s', es[1..]) == Went(s');
    } else {
      var rest := DropFinishes(s', i);
      es := [e] + rest;
      assert es[1..] == rest;
    }
  }

  /** How many of the events are steps of client `i` or of its thread. */
  function StepsOf(es: seq<Event>, i: nat): nat {
    if es == [] then 0 else (if es[0].By? && es[0].i == i then 1 else 0) + StepsOf(es[1..], i)
  }

  /** Under any schedule a client that is giving up its claim, and its thread, take no more steps
      than are left, unless it claims again. */
  lemma {:induction false} DropStepsBounded(s: State, active: Option<nat>, i: nat, es: seq<Event>)
    requires Inv(s, active) && i < |s.clients| && (s.clients[i].Idle? || DropWork(s.clients[i]) > 0)
    requires Exec(s, es).Went? && forall k :: 0 <= k < |es| ==> es[k] != By(i, Claim)
    ensures |Exec(s, es).s.clients| == |s.clients|
    ensures StepsOf(es, i) + DropWork(Exec(s, es).s.clients[i]) <= DropWork(s.clients[i])
    decreases |es|
  {
    if es == [] {
      return;
    }
    assert forall k :: 0 <= k < |es[1..]| ==> es[1..][k] == es[k + 1];
    if Next(s, es[0]).Went? {
      var s' := Next(s, es[0]).s;
      var active' := NextInv(s, active, es[0]);
      if DropWork(s.clients[i]) > 0 {
        DropNeverSetBack(s, es[0], i);
      } else {
        IdleRests(s, es[0], i);
      }
      DropStepsBounded(s', active', i, es[1..]);
    } else {
      DropStepsBounded(s, active, i, es[1..]);
    }
  }

  lemma IdleRests(s: State, e: Event, i: nat)
    requires i < |s.clients| && s.clients[i].Idle? && e != By(i, Claim) && Next(s, e).Went?
    ensures |Next(s, e).s.clients| == |s.clients| && Next(s, e).s.clients[i].Idle? && !(e.By? && e.i == i)
  {
  }

  /** So it is in every reachable state. */
  lemma {:induction false} ReachableDropFinishes(n: nat, es: seq<Event>, i: nat) returns (more: seq<Event>)
    requires Exec(Init(n), es).Went? && i < |Exec(Init(n), es).s.clients|
    requires DropWork(Exec(Init(n), es).s.clients[i]) > 0
    ensures |more| <= 5 && Exec(Exec(Init(n), es).s, more).Went?
    ensures var s := Exec(Exec(Init(n), es).s, more).s;
            !s.claimed && !s.lock.HeldFor? && |s.clients| == n && forall c :: c in s.clients ==> c.Idle?
  {
    var active := ExecInv(Init(n), None, es);
    more := DropFinishes(Exec(Init(n), es).s, i);
    var after := ExecInv(Exec(Init(n), es).s, active, more);
  }

  predicate Fails(e: Event) {
    e.By? && e.act.SpawnFails?
  }

  /** The flag is lost for good exactly when a spawn failed. */
  lemma {:induction false} LostIff(s: State, es: seq<Event>)
    requires Exec(s, es).Went?
    ensures Exec(s, es).s.lost <==> s.lost || exists k :: 0 <= k < |es| && Fails(es[k])
    decreases |es|
  {
    if es != [] {
      var s' := if Next(s, es[0]).Went? then Next(s, es[0]).s else s;
      LostIff(s', es[1..]);
      assert forall k :: 0 < k < |es| ==> es[k] == es[1..][k - 1];
    }
  }

  /** When every client is idle a new claim succeeds if and only if no spawn ever failed. */
  lemma ClaimableIff(n: nat, es: seq<Event>, i: nat)
    requires Exec(Init(n), es).Went? && i < |Exec(Init(n), es).s.clients|
    requires forall c :: c in Exec(Init(n), es).s.clients ==> c.Idle?
    ensures Next(Exec(Init(n), es).s, By(i, Claim)).Went? <==> !exists k :: 0 <= k < |es| && Fails(es[k])
  {
    var active := ExecInv(Init(n), None, es);
    LostIff(Init(n), es);
  }

  /** And one such run: after a spawn that failed the only client is idle, and refused. */
  lemma FailedSpawnIsNotClaimable()
    ensures var s := Exec(Init(1), [By(0, Claim), By(0, SpawnFails)]);
            && s.Went? && (forall c :: c in s.s.clients ==> c.Idle?)
            && Next(s.s, By(0, Claim)).Refused?
  {
    var s, es := Init(1), [By(0, Claim), By(0, SpawnFails)];
    var s1 := State(true, Free, [Claiming], false);
    var s2 := State(true, Free, [Idle], true);
    assert Next(s, es[0]) == Went(s1);
    assert es[1..] == [By(0, SpawnFails)] && es[1..][1..] == [];
    assert Next(s1, es[1]) == Went(s2);
  }

  /** In every reachable state a claim is answered: refused while another client has the claim or
      once a spawn has failed, and granted otherwise. */
  lemma ClaimIsAnswered(n: nat, es: seq<Event>, i: nat)
    requires Exec(Init(n), es).Went? && i < |Exec(Init(n), es).s.clients| && Exec(Init(n), es).s.clients[i].Idle?
    ensures var s := Exec(Init(n), es).s;
            if (exists j :: 0 <= j < |s.clients| && !s.clients[j].Idle?) || (exists k :: 0 <= k < |es| && Fails(es[k]))
            then Next(s, By(i, Claim)).Refused? else Next(s, By(i, Claim)).Went?
  {
    var active := ExecInv(Init(n), None, es);
    LostIff(Init(n), es);
    var s := Exec(Init(n), es).s;
    if active.Some? {
      assert !s.clients[active.value].Idle?;
    }
  }

  lemma ExecFirst(s: State, e: Event, es: seq<Event>)
    requires Next(s, e).Went?
    ensures Exec(s, [e] + es) == Exec(Next(s, e).s, es)
  {
    assert ([e] + es)[1..] == es;
  }

  /** Where the claim and the lock are free a claim can be made, and then the thread has the lock. */
  lemma ClaimTakesHold(s: State, i: nat)
    requires i < |s.clients| && s.clients[i].Idle? && !s.claimed && s.lock.Free?
    ensures Exec(s, [By(i, Claim)] + ([By(i, Spawn)] + ([By(i, Acquire)] + []))) ==
            Went(With(s.(claimed := true, lock := HeldFor(i)), i, Holding(Locked, false)))
  {
    var s1 := With(s.(claimed := true), i, Claiming);
    var s2 := With(s1, i, Holding(Starting, false));
    ExecFirst(s2, By(i, Acquire), []);
    ExecFirst(s1, By(i, Spawn), [By(i, Acquire)] + []);
    ExecFirst(s, By(i, Claim), [By(i, Spawn)] + ([By(i, Acquire)] + []));
  }

  /** And giving it up leaves the claim and the lock free. */
  lemma HoldIsGivenUp(s: State, i: nat)
    requires i < |s.clients| && s.clients[i] == Holding(Locked, false)
    ensures Exec(s, [By(i, StartDrop)] + ([By(i, Unpark)] + ([By(i, Join)] + ([By(i, Clear)] + [])))) ==
            Went(With(s.(claimed := false, lock := Free), i, Idle))
  {
    var s1 := With(s, i, Dropping(Locked, true));
    var s2 := With(s1.(lock := Free), i, Dropping(Ended, false));
    var s3 := With(s2, i, Releasing);
    ExecFirst(s3, By(i, Clear), []);
    ExecFirst(s2, By(i, Join), [By(i, Clear)] + []);
    ExecFirst(s1, By(i, Unpark), [By(i, Join)] + ([By(i, Clear)] + []));
    ExecFirst(s, By(i, StartDrop), [By(i, Unpark)] + ([By(i, Join)] + ([By(i, Clear)] + [])));
  }

  /** A client that holds a claim can give it up at any time, even before its thread has the
      lock; outside users of the lock come and go as they find it. */
  lemma AlwaysDroppable(s: State, i: nat)
    requires Inv(s, Some(i)) && s.clients[i].Holding?
    ensures Next(s, By(i, StartDrop)).Went? && DropWork(Next(s, By(i, StartDrop)).s.clients[i]) > 0
    ensures s.lock.Free? ==> Next(s, OutsideLocks) == Went(s.(lock := Outside))
    ensures s.lock.Outside? ==> Next(s, OutsideUnlocks) == Went(s.(lock := Free))
  {
  }
}
