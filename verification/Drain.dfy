/**
 The engine's drain protocol (src/engine/mod.rs:679-703, 1025-1040): operations
 register and clone the store, `close` waits for them and releases it. Any
 number of threads take the atomic steps of `acquire_store`, `finish_op` and
 `close` in any order.
 */
module Drain {
  import opened Collections

  type Thread = nat

  /** Where a thread stands. */
  datatype Pc =
    | Idle
    // acquire_store
    | Loaded       // read `closed` as false
    | Registered   // counted in `ops`
    | Looking      // holds the lock on the slot
    | Took         // cloned the store, lock still held
    | Missed       // found the slot empty, lock still held
    | Cloned       // lock dropped, operating on the clone
    | Refused      // lock dropped, about to undo the registration
    // close
    | Swapped      // set `closed`, was first to do so
    | Draining     // holds the lock, about to read `ops`
    | Waiting      // parked on the condition variable, lock released
    | Clearing     // holds the lock, has read `ops` as zero
    | Cleared      // emptied the slot, lock still held
    // results, until the thread starts over
    | Done(ok: bool)

  datatype State = State(
    closed: bool,          // AtomicBool
    ops: int,              // AtomicU64
    slot: bool,            // whether the mutex still holds the store
    holder: set<Thread>,   // who holds the mutex: at most one
    pc: map<Thread, Pc>,
    closes: nat)           // how many `close` calls have returned Ok

  function At(s: State, t: Thread): Pc {
    if t in s.pc then s.pc[t] else Idle
  }

  function Move(s: State, t: Thread, p: Pc): State {
    s.(pc := s.pc[t := p])
  }

  const Start := State(false, 0, true, {}, map[], 0)

  // ----- the steps -----

  datatype Step = Load | Register | Lock | Look | Unlock | Finish | Swap | LockClose | ReadOps | Clear | Release | Reset

  /** Thread `t` takes step `a`. */
  predicate Takes(s: State, t: Thread, a: Step, r: State) {
    match a
    case Load => At(s, t).Idle? && r == Move(s, t, if s.closed then Done(false) else Loaded)
    case Register => At(s, t).Loaded? && r == Move(s, t, Registered).(ops := s.ops + 1)
    case Lock => At(s, t).Registered? && s.holder == {} && r == Move(s, t, Looking).(holder := {t})
    case Look => At(s, t).Looking? && r == Move(s, t, if s.slot then Took else Missed)
    case Unlock =>
      && (At(s, t).Took? || At(s, t).Missed?)
      && r == Move(s, t, if At(s, t).Took? then Cloned else Refused).(holder := {})
    case Finish =>
      && (At(s, t).Cloned? || At(s, t).Refused?)
      && r == Move(s, t, Done(At(s, t).Cloned?)).(ops := s.ops - 1)
    case Swap => At(s, t).Idle? && r == Move(s, t, if s.closed then Done(false) else Swapped).(closed := true)
    case LockClose =>
      (At(s, t).Swapped? || At(s, t).Waiting?) && s.holder == {} && r == Move(s, t, Draining).(holder := {t})
    case ReadOps =>
      && At(s, t).Draining?
      && r == if s.ops == 0 then Move(s, t, Clearing) else Move(s, t, Waiting).(holder := {})
    case Clear => At(s, t).Clearing? && r == Move(s, t, Cleared).(slot := false)
    case Release =>
      At(s, t).Cleared? && r == Move(s, t, Done(true)).(holder := {}, closes := s.closes + 1)
    case Reset => At(s, t).Done? && r == Move(s, t, Idle)
  }

  // ----- what every step keeps -----

  /** Registered and not yet finished. */
  predicate InFlight(p: Pc) {
    p.Registered? || p.Looking? || p.Took? || p.Missed? || p.Cloned? || p.Refused?
  }

  /** Between its clone and its finish. */
  predicate Using(p: Pc) {
    p.Took? || p.Cloned?
  }

  predicate Holds(p: Pc) {
    p.Looking? || p.Took? || p.Missed? || p.Draining? || p.Clearing? || p.Cleared?
  }

  /** In a `close` that was the first to set `closed`. */
  predicate Closing(p: Pc) {
    p.Swapped? || p.Draining? || p.Waiting? || p.Clearing? || p.Cleared?
  }

  function Flying(s: State): set<Thread> {
    set t | t in s.pc && InFlight(s.pc[t])
  }

  function Closers(s: State): set<Thread> {
    set t | t in s.pc && Closing(s.pc[t])
  }

  /** The count is exact. */
  ghost predicate Counted(s: State) {
    s.ops == |Flying(s)|
  }

  /** The mutex is held by exactly the threads that believe they hold it. */
  ghost predicate Exclusive(s: State) {
    && |s.holder| <= 1
    && (forall t :: t in s.holder <==> Holds(At(s, t)))
  }

  /** One winning `close` at most, from its swap to its return. */
  ghost predicate OneClose(s: State) {
    |Closers(s)| + s.closes == if s.closed then 1 else 0
  }

  /** The store is gone only once a close has cleared it. */
  ghost predicate SlotTracked(s: State) {
    s.slot <==> s.closes == 0 && forall t :: !At(s, t).Cleared?
  }

  /** Past the point where `ops` was read as zero, nobody uses the store. */
  ghost predicate Quiet(s: State) {
    Past(s) ==> forall u :: !Using(At(s, u))
  }

  ghost predicate Inv(s: State) {
    Counted(s) && Exclusive(s) && OneClose(s) && SlotTracked(s) && Quiet(s)
  }

  lemma MoveFlying(s: State, t: Thread, p: Pc)
    ensures Flying(Move(s, t, p)) == if InFlight(p) then Flying(s) + {t} else Flying(s) - {t}
    ensures t in Flying(s) <==> InFlight(At(s, t))
  {
  }

  lemma MoveClosers(s: State, t: Thread, p: Pc)
    ensures Closers(Move(s, t, p)) == if Closing(p) then Closers(s) + {t} else Closers(s) - {t}
    ensures t in Closers(s) <==> Closing(At(s, t))
  {
  }

  lemma CountedKept(s: State, t: Thread, a: Step, r: State)
    requires Counted(s) && Takes(s, t, a, r)
    ensures Counted(r)
  {
    MoveFlying(s, t, At(r, t));
    assert Flying(r) == Flying(Move(s, t, At(r, t)));
  }

  lemma ExclusiveKept(s: State, t: Thread, a: Step, r: State)
    requires Exclusive(s) && Takes(s, t, a, r)
    ensures Exclusive(r)
  {
    forall u ensures u in r.holder <==> Holds(At(r, u)) {
      if u == t { HolderMoves(s, t, a, r); } else { OthersHold(s, t, a, r, u); }
    }
    assert r.holder == s.holder || r.holder == {} || r.holder == {t};
  }

  lemma HolderMoves(s: State, t: Thread, a: Step, r: State)
    requires Exclusive(s) && Takes(s, t, a, r)
    ensures t in r.holder <==> Holds(At(r, t))
  {
    assert t in s.holder <==> Holds(At(s, t));
  }

  lemma OthersHold(s: State, t: Thread, a: Step, r: State, u: Thread)
    requires Exclusive(s) && Takes(s, t, a, r) && u != t
    ensures u in r.holder <==> Holds(At(r, u))
  {
    assert At(r, u) == At(s, u);
    assert u in s.holder <==> Holds(At(s, u));
    OnlyHolder(s, t, u);
  }

  lemma OnlyHolder(s: State, t: Thread, u: Thread)
    requires Exclusive(s)
    ensures Holds(At(s, t)) && Holds(At(s, u)) ==> t == u
  {
    if Holds(At(s, t)) && Holds(At(s, u)) && t != u {
      assert {t, u} <= s.holder;
      assert |{t, u}| == 2;
      SubsetSize({t, u}, s.holder);
    }
  }

  lemma OneCloseKept(s: State, t: Thread, a: Step, r: State)
    requires OneClose(s) && Takes(s, t, a, r)
    ensures OneClose(r)
  {
    MoveClosers(s, t, At(r, t));
    assert Closers(r) == Closers(Move(s, t, At(r, t)));
  }

  lemma SlotKept(s: State, t: Thread, a: Step, r: State)
    requires OneClose(s) && SlotTracked(s) && Takes(s, t, a, r)
    ensures SlotTracked(r)
  {
    forall u ensures u != t ==> At(r, u) == At(s, u) {}
    if a.Clear? {
      assert At(r, t).Cleared?;
    } else if a.Release? {
      assert At(s, t).Cleared?;
    } else if exists u :: At(s, u).Cleared? {
      var u :| At(s, u).Cleared?;
      assert At(r, u).Cleared?;
    }
  }

  lemma NoneFlying(s: State, u: Thread)
    requires Counted(s) && s.ops == 0
    ensures !Using(At(s, u))
  {
    assert u !in Flying(s);
  }

  /** Past the zero read, in the state before or at this step. */
  ghost predicate Past(s: State) {
    s.closes > 0 || exists t :: At(s, t).Clearing? || At(s, t).Cleared?
  }

  /** Nobody starts using the store once the zero has been read. */
  lemma PastStaysQuiet(s: State, t: Thread, a: Step, r: State)
    requires Inv(s) && Past(s) && Takes(s, t, a, r)
    ensures forall u :: !Using(At(r, u))
  {
    if a.Look? && s.closes == 0 {
      var w :| At(s, w).Clearing? || At(s, w).Cleared?;
      OnlyHolder(s, w, t);
    }
    forall u ensures !Using(At(r, u)) {
      assert !Using(At(s, u));
      if u != t { assert At(r, u) == At(s, u); }
    }
  }

  lemma PastComesFromZero(s: State, t: Thread, a: Step, r: State)
    requires Past(r) && !Past(s) && Takes(s, t, a, r)
    ensures a == ReadOps && s.ops == 0
  {
    if r.closes == 0 {
      var w :| At(r, w).Clearing? || At(r, w).Cleared?;
      assert !At(s, w).Clearing? && !At(s, w).Cleared?;
    } else {
      assert !At(s, t).Cleared?;
    }
    assert !At(s, t).Clearing?;
  }

  lemma QuietKept(s: State, t: Thread, a: Step, r: State)
    requires Inv(s) && Takes(s, t, a, r)
    ensures Quiet(r)
  {
    if Past(s) {
      PastStaysQuiet(s, t, a, r);
    } else if Past(r) {
      PastComesFromZero(s, t, a, r);
      forall u ensures !Using(At(r, u)) {
        NoneFlying(s, u);
        if u != t { assert At(r, u) == At(s, u); }
      }
    }
  }

  /** Every step of every thread keeps the invariant. */
  lemma StepKeepsInv(s: State, t: Thread, a: Step, r: State)
    requires Inv(s) && Takes(s, t, a, r)
    ensures Inv(r)
  {
    CountedKept(s, t, a, r);
    ExclusiveKept(s, t, a, r);
    OneCloseKept(s, t, a, r);
    SlotKept(s, t, a, r);
    QuietKept(s, t, a, r);
  }

  // ----- whole runs -----

  datatype Event = Event(thread: Thread, step: Step)

  ghost predicate Run(trace: seq<State>, events: seq<Event>) {
    && |trace| == |events| + 1
    && trace[0] == Start
    && forall i :: 0 <= i < |events| ==> Takes(trace[i], events[i].thread, events[i].step, trace[i + 1])
  }

  lemma StartInv()
    ensures Inv(Start)
  {
    assert Flying(Start) == {} && Closers(Start) == {};
  }

  /** Every state of every run satisfies the invariant. */
  lemma {:induction false} RunInv(trace: seq<State>, events: seq<Event>, i: nat)
    requires Run(trace, events) && i < |trace|
    ensures Inv(trace[i])
  {
    if i == 0 {
      StartInv();
    } else {
      RunInv(trace, events, i - 1);
      StepKeepsInv(trace[i - 1], events[i - 1].thread, events[i - 1].step, trace[i]);
    }
  }

  /** `closed` and the count of successful closes never go back. */
  lemma {:induction false} Monotone(trace: seq<State>, events: seq<Event>, i: nat, j: nat)
    requires Run(trace, events) && i <= j < |trace|
    ensures trace[i].closed ==> trace[j].closed
    ensures trace[i].closes <= trace[j].closes
    decreases j - i
  {
    if i < j { Monotone(trace, events, i, j - 1); }
  }

  /** The count is the number of registered threads, and no finish ever takes it below zero. */
  lemma CountExact(trace: seq<State>, events: seq<Event>, i: nat)
    requires Run(trace, events) && i < |trace|
    ensures trace[i].ops == |Flying(trace[i])|
    ensures i < |events| && events[i].step.Finish? ==> trace[i].ops > 0
  {
    RunInv(trace, events, i);
    if i < |events| && events[i].step.Finish? {
      var t := events[i].thread;
      assert Takes(trace[i], t, events[i].step, trace[i + 1]);
      assert t in Flying(trace[i]);
    }
  }

  /** An operation never outlives the store: while anyone holds a clone, the slot is still full. */
  lemma CloneIsLive(trace: seq<State>, events: seq<Event>, i: nat, t: Thread)
    requires Run(trace, events) && i < |trace| && Using(At(trace[i], t))
    ensures trace[i].slot && trace[i].closes == 0
  {
    RunInv(trace, events, i);
    if !trace[i].slot {
      assert Past(trace[i]);
    }
  }

  /**
   Drain safety. Once a close has returned Ok: the slot is empty, nobody is
   between a clone and its finish, that was the only such close, and every
   acquire or close that starts later is refused.
   */
  lemma DrainSafety(trace: seq<State>, events: seq<Event>, i: nat, j: nat)
    requires Run(trace, events) && i <= j < |trace| && trace[i].closes > 0
    ensures !trace[j].slot && trace[j].closed && trace[j].closes == 1
    ensures forall t :: !Using(At(trace[j], t))
    ensures j < |events| && (events[j].step.Load? || events[j].step.Swap?) ==>
              At(trace[j + 1], events[j].thread) == Done(false)
  {
    RunInv(trace, events, i);
    RunInv(trace, events, j);
    Monotone(trace, events, i, j);
    assert Past(trace[j]);
    if j < |events| {
      assert Takes(trace[j], events[j].thread, events[j].step, trace[j + 1]);
    }
  }

  /** Event `z` is a `close` reading the count as zero. */
  ghost predicate ReadsZero(trace: seq<State>, events: seq<Event>, z: nat) {
    z < |events| < |trace| && events[z].step.ReadOps? && trace[z].ops == 0
  }

  /** Thread `t` registered after event `z` and has not finished before state `i`. */
  ghost predicate LateSince(events: seq<Event>, z: nat, i: nat, t: Thread)
    requires i <= |events|
  {
    exists j :: z < j < i && events[j] == Event(t, Register) && Unfinished(events, j, i, t)
  }

  ghost predicate Unfinished(events: seq<Event>, j: nat, i: nat, t: Thread)
    requires i <= |events|
  {
    forall k :: j < k < i ==> events[k] != Event(t, Finish)
  }

  lemma StepFlying(s: State, u: Thread, a: Step, r: State, t: Thread)
    requires Takes(s, u, a, r)
    ensures t in Flying(s) <==> InFlight(At(s, t))
    ensures t in Flying(r) <==> if u == t && a.Register? then true else if u == t && a.Finish? then false else t in Flying(s)
  {
    if u != t { assert At(r, t) == At(s, t); }
    assert t in Flying(r) <==> InFlight(At(r, t));
  }

  lemma LateStep(events: seq<Event>, z: nat, i: nat, t: Thread)
    requires z < i < |events|
    ensures LateSince(events, z, i + 1, t)
       <==> if events[i] == Event(t, Register) then true
            else if events[i] == Event(t, Finish) then false
            else LateSince(events, z, i, t)
  {
    if events[i] == Event(t, Register) {
      assert Unfinished(events, i, i + 1, t);
    } else if LateSince(events, z, i + 1, t) {
      var j :| z < j < i + 1 && events[j] == Event(t, Register) && Unfinished(events, j, i + 1, t);
      assert Unfinished(events, j, i, t);
    } else if LateSince(events, z, i, t) && events[i] != Event(t, Finish) {
      var j :| z < j < i && events[j] == Event(t, Register) && Unfinished(events, j, i, t);
      assert Unfinished(events, j, i + 1, t);
    }
  }

  /** After the count was read as zero, in flight are exactly the threads that registered since and have not finished. */
  lemma {:induction false} FlyingIsLate(trace: seq<State>, events: seq<Event>, z: nat, i: nat, t: Thread)
    requires Run(trace, events) && z < i < |trace| && ReadsZero(trace, events, z)
    ensures t in Flying(trace[i]) <==> LateSince(events, z, i, t)
    decreases i
  {
    hide Takes, Flying, LateSince;
    var e := events[i - 1];
    StepFlying(trace[i - 1], e.thread, e.step, trace[i], t);
    if i == z + 1 {
      RunInv(trace, events, z);
      assert Flying(trace[z]) == {};
      NoneLateYet(events, z, t);
    } else {
      FlyingIsLate(trace, events, z, i - 1, t);
      LateStep(events, z, i - 1, t);
      assert e == Event(e.thread, e.step);
    }
  }

  lemma NoneLateYet(events: seq<Event>, z: nat, t: Thread)
    requires z < |events|
    ensures !LateSince(events, z, z + 1, t)
  {
  }

  /** A successful close has read the count as zero before. */
  lemma {:induction false} ZeroWasRead(trace: seq<State>, events: seq<Event>, i: nat) returns (z: nat)
    requires Run(trace, events) && i < |trace| && Past(trace[i])
    ensures z < i && ReadsZero(trace, events, z)
  {
    hide Takes, Past;
    if i == 0 {
      NotPastAtStart();
    } else if Past(trace[i - 1]) {
      z := ZeroWasRead(trace, events, i - 1);
    } else {
      PastComesFromZero(trace[i - 1], events[i - 1].thread, events[i - 1].step, trace[i]);
      z := i - 1;
    }
  }

  lemma NotPastAtStart()
    ensures !Past(Start)
  {
  }

  /**
   After a successful close the count is exactly the acquires that registered after
   it read zero and have not been refused yet: zero if and only if there is none.
   */
  lemma LateArrivals(trace: seq<State>, events: seq<Event>, i: nat) returns (z: nat)
    requires Run(trace, events) && i < |trace| && trace[i].closes > 0
    ensures z < i && ReadsZero(trace, events, z)
    ensures trace[i].ops == |Flying(trace[i])|
    ensures forall t :: t in Flying(trace[i]) <==> LateSince(events, z, i, t)
    ensures trace[i].ops == 0 <==> forall t :: !LateSince(events, z, i, t)
  {
    hide Takes, LateSince, Flying;
    RunInv(trace, events, i);
    z := ZeroWasRead(trace, events, i);
    forall t ensures t in Flying(trace[i]) <==> LateSince(events, z, i, t) {
      FlyingIsLate(trace, events, z, i, t);
    }
    if trace[i].ops != 0 {
      var t :| t in Flying(trace[i]);
    }
  }

  /**
   The count itself need not be zero when a close returns Ok: an acquire that
   read `closed` early may register after the zero was read.
   */
  lemma CountMayBeNonzero()
    ensures exists trace: seq<State>, events: seq<Event> ::
              Run(trace, events) && trace[|events|].closes == 1 && trace[|events|].ops == 1
  {
    var s1 := Move(Start, 0, Loaded);
    var s2 := Move(s1, 1, Swapped).(closed := true);
    var s3 := Move(s2, 1, Draining).(holder := {1});
    var s4 := Move(s3, 1, Clearing);
    var s5 := Move(s4, 0, Registered).(ops := 1);
    var s6 := Move(s5, 1, Cleared).(slot := false);
    var s7 := Move(s6, 1, Done(true)).(holder := {}, closes := 1);
    var trace := [Start, s1, s2, s3, s4, s5, s6, s7];
    var events := [Event(0, Load), Event(1, Swap), Event(1, LockClose), Event(1, ReadOps), Event(0, Register),
                   Event(1, Clear), Event(1, Release)];
    assert Takes(Start, 0, Load, s1);
    assert Takes(s1, 1, Swap, s2);
    assert Takes(s2, 1, LockClose, s3);
    assert Takes(s3, 1, ReadOps, s4);
    assert Takes(s4, 0, Register, s5);
    assert Takes(s5, 1, Clear, s6);
    assert Takes(s6, 1, Release, s7);
    hide Takes, Move, At;
    assert Run(trace, events);
  }
}
