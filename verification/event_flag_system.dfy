/** Any number of threads calling any number of event flags.

    Every critical section of a flag's mutex is one step.  The lookup in the registry, the
    removal from the registry, `notify_all`, a timeout and a spurious wake-up are steps of
    their own. */
module EventFlagSystem {
  import opened Options
  import opened EventPatterns
  import opened EventFlagObject

  type Tid = nat
  type Handle = nat

  datatype Op =
    | Create(initial: iset<bv64>)
    | Set(bits: iset<bv64>)
    | Clear(bits: iset<bv64>)
    | Poll(bits: iset<bv64>, mode: Mode)
    | Wait(bits: iset<bv64>, mode: Mode)
    | Cancel(pattern: iset<bv64>)
    | ResetCanceled
    | Delete

  /** Where a thread is. */
  datatype Pc =
    | Guest(last: Outcome)                                        // outside every call
    | Found(h: Handle, op: Op)                                    // looked the flag up, mutex not yet held
    | Erased(h: Handle)                                           // Delete: out of the registry, mutex not yet held
    | Notifying(h: Handle, cancel: bool)                          // mutex released, notify_all pending
    | Resetting(h: Handle)                                        // Cancel: before its second critical section
    | Parked(h: Handle, bits: iset<bv64>, mode: Mode)                   // asleep in the condition variable
    | Awake(h: Handle, bits: iset<bv64>, mode: Mode, timedOut: bool)    // woken, mutex not yet held again

  /** One critical section that decided something, in mutex order. */
  datatype Event = Event(h: Handle, op: Op, outcome: Outcome, seen: iset<bv64>, waiting: int)

  datatype State = State(flags: map<Handle, Flag>, registry: set<Handle>, threads: map<Tid, Pc>, log: seq<Event>)

  datatype Step =
    | CreateFlag(t: Tid, h: Handle, initial: iset<bv64>)
    | Call(t: Tid, h: Handle, op: Op)
    | Advance(t: Tid)
    | TimeOut(t: Tid)
    | WakeSpuriously(t: Tid)

  ghost predicate Init(s: State) {
    && s.flags == map[] && s.registry == {} && s.log == []
    && forall t <- s.threads :: s.threads[t].Guest?
  }

  ghost predicate Callable(op: Op) {
    !op.Create? && !op.ResetCanceled?
  }

  ghost predicate Enabled(s: State, step: Step) {
    && step.t in s.threads
    && var pc := s.threads[step.t];
       match step
       case CreateFlag(_, h, _) => pc.Guest? && h != 0 && h !in s.flags
       case Call(_, _, op) => pc.Guest? && Callable(op)
       case Advance(_) => !pc.Guest? && !pc.Parked? && pc.h in s.flags
       case TimeOut(_) => pc.Parked?
       case WakeSpuriously(_) => pc.Parked?
  }

  ghost function Wake(pc: Pc, h: Handle): Pc {
    if pc.Parked? && pc.h == h then Awake(pc.h, pc.bits, pc.mode, false) else pc
  }

  /** The step of thread t that leaves flag h as f, moves t to pc and logs `entry`. */
  ghost function Move(s: State, t: Tid, h: Handle, f: Flag, pc: Pc, entry: seq<Event>): State {
    State(s.flags[h := f], s.registry, s.threads[t := pc], s.log + entry)
  }

  /** The end of a wait, in the critical section that saw the flag as f. */
  ghost function Leave(s: State, t: Tid, h: Handle, f: Flag, bits: iset<bv64>, mode: Mode, ok: bool): State {
    var outcome := LeaveOutcome(f, ok);
    Move(s, t, h, AfterLeave(f, bits, mode, ok), Guest(outcome),
         [Event(h, Wait(bits, mode), outcome, f.pattern, f.waiters)])
  }

  /** The critical section a thread runs after its lookup. */
  ghost function Locked(s: State, t: Tid, h: Handle, op: Op): State
    requires h in s.flags
  {
    var f := s.flags[h];
    match op
    case Set(bits) => Move(s, t, h, AfterSet(f, bits), Notifying(h, false), [Event(h, op, Ok, f.pattern, f.waiters)])
    case Clear(bits) => Move(s, t, h, AfterClear(f, bits), Guest(Ok), [Event(h, op, Ok, f.pattern, f.waiters)])
    case Poll(bits, mode) =>
      var outcome := PollOutcome(f, bits, mode);
      Move(s, t, h, AfterPoll(f, bits, mode), Guest(outcome), [Event(h, op, outcome, f.pattern, f.waiters)])
    case Wait(bits, mode) =>
      var g := AfterEnter(f);
      if Ready(g, bits, mode) then Leave(s, t, h, g, bits, mode, true)
      else Move(s, t, h, g, Parked(h, bits, mode), [])
    case Cancel(p) => Move(s, t, h, AfterCancel(f, p), Notifying(h, true), [Event(h, op, Ok, f.pattern, f.waiters)])
    case Delete => s.(registry := s.registry - {h}, threads := s.threads[t := Erased(h)])
    case _ => s
  }

  ghost function Apply(s: State, step: Step): State
    requires Enabled(s, step)
  {
    var t := step.t;
    var pc := s.threads[t];
    match step
    case CreateFlag(_, h, initial) =>
      State(s.flags[h := NewFlag(initial)], s.registry + {h}, s.threads[t := Guest(Ok)],
            s.log + [Event(h, Create(initial), Ok, iset{}, 0)])
    case Call(_, h, op) =>
      s.(threads := s.threads[t := if h in s.registry then Found(h, op) else Guest(Invalid)])
    case TimeOut(_) => s.(threads := s.threads[t := Awake(pc.h, pc.bits, pc.mode, true)])
    case WakeSpuriously(_) => s.(threads := s.threads[t := Awake(pc.h, pc.bits, pc.mode, false)])
    case Advance(_) =>
      var f := s.flags[pc.h];
      match pc
      case Found(h, op) => Locked(s, t, h, op)
      case Erased(h) =>
        Move(s, t, h, f.(deleted := true), Notifying(h, false), [Event(h, Delete, Ok, f.pattern, f.waiters)])
      case Notifying(h, cancel) =>
        var woken := map u <- s.threads :: Wake(s.threads[u], h);
        s.(threads := woken[t := if cancel then Resetting(h) else Guest(Ok)])
      case Resetting(h) =>
        Move(s, t, h, f.(canceled := false), Guest(Ok), [Event(h, ResetCanceled, Ok, f.pattern, f.waiters)])
      case Awake(h, bits, mode, timedOut) =>
        if Ready(f, bits, mode) then Leave(s, t, h, f, bits, mode, true)
        else if timedOut then Leave(s, t, h, f, bits, mode, false)
        else s.(threads := s.threads[t := Parked(h, bits, mode)])
      case _ => s
  }

  /** The state after a run; it does not change once a step is not enabled. */
  ghost function Exec(s: State, steps: seq<Step>): State
    decreases |steps|
  {
    if |steps| == 0 then s
    else
      var before := Exec(s, steps[..|steps| - 1]);
      if Enabled(before, steps[|steps| - 1]) then Apply(before, steps[|steps| - 1]) else before
  }

  // ---- References: a thread only ever names flags that exist, calls that exist ----

  ghost predicate RefsOk(s: State) {
    && s.registry <= s.flags.Keys
    && (forall t <- s.threads | !s.threads[t].Guest? :: s.threads[t].h in s.flags)
    && (forall t <- s.threads | s.threads[t].Found? :: Callable(s.threads[t].op))
  }

  lemma RefsKept(s: State, step: Step)
    requires RefsOk(s) && Enabled(s, step)
    ensures RefsOk(Apply(s, step))
    ensures Apply(s, step).threads.Keys == s.threads.Keys
    ensures s.flags.Keys <= Apply(s, step).flags.Keys
  {
  }

  // ---- No lost wake-up ----

  ghost predicate SomeoneNotifying(s: State, h: Handle) {
    exists u <- s.threads :: s.threads[u].Notifying? && s.threads[u].h == h
  }

  ghost predicate StuckReady(s: State, t: Tid) {
    && t in s.threads && s.threads[t].Parked? && s.threads[t].h in s.flags
    && Ready(s.flags[s.threads[t].h], s.threads[t].bits, s.threads[t].mode)
  }

  ghost predicate NoLostWakeup(s: State) {
    forall t :: StuckReady(s, t) ==> SomeoneNotifying(s, s.threads[t].h)
  }

  /** Leaving a wait and clearing never make another waiter's predicate true. */
  lemma ClearingNeverReadies(f: Flag, bits: iset<bv64>, mode: Mode, ok: bool, bits': iset<bv64>, mode': Mode)
    ensures Ready(AfterLeave(f, bits, mode, ok), bits', mode') ==> Ready(f, bits', mode')
    ensures Ready(AfterClear(f, bits), bits', mode') ==> Ready(f, bits', mode')
    ensures Ready(AfterPoll(f, bits, mode), bits', mode') ==> Ready(f, bits', mode')
  {
    FulfilledMonotone(f.pattern * bits, f.pattern, bits', mode');
    FulfilledMonotone(Remaining(f.pattern, bits, mode), f.pattern, bits', mode');
  }

  lemma FulfilledMonotone(small: iset<bv64>, large: iset<bv64>, wanted: iset<bv64>, mode: Mode)
    requires small <= large
    ensures Fulfilled(small, wanted, mode) ==> Fulfilled(large, wanted, mode)
  {
    assert small * wanted <= large * wanted;
  }

  /** A critical section of thread t on flag h: only t moves, only h changes, and whoever
      makes a waiting predicate true leaves with a pending notify_all. */
  ghost predicate SafeSection(s: State, s': State, t: Tid, h: Handle) {
    && t in s.threads && h in s.flags
    && s'.flags.Keys == s.flags.Keys && s'.threads.Keys == s.threads.Keys
    && (forall k <- s.flags | k != h :: s'.flags[k] == s.flags[k])
    && (forall u <- s.threads | u != t :: s'.threads[u] == s.threads[u])
    && !s.threads[t].Notifying?
    && (s'.threads[t] == Notifying(h, s'.threads[t].Notifying? && s'.threads[t].cancel)
        || forall bits, mode :: Ready(s'.flags[h], bits, mode) ==> Ready(s.flags[h], bits, mode))
    && (s'.threads[t].Parked? ==>
          s'.threads[t].h == h && !Ready(s'.flags[h], s'.threads[t].bits, s'.threads[t].mode))
  }

  lemma SafeSectionKeeps(s: State, s': State, t: Tid, h: Handle)
    requires RefsOk(s) && NoLostWakeup(s) && SafeSection(s, s', t, h)
    ensures NoLostWakeup(s')
  {
    forall v | StuckReady(s', v) ensures SomeoneNotifying(s', s'.threads[v].h) {
      if s'.threads[t].Notifying? && s'.threads[t].h == s'.threads[v].h {
      } else {
        assert StuckReady(s, v);
        var u :| u in s.threads && s.threads[u].Notifying? && s.threads[u].h == s.threads[v].h;
        assert u != t && s'.threads[u] == s.threads[u];
      }
    }
  }

  lemma AdvanceIsSafe(s: State, t: Tid)
    requires RefsOk(s) && Enabled(s, Advance(t)) && !s.threads[t].Notifying?
    ensures SafeSection(s, Apply(s, Advance(t)), t, s.threads[t].h)
  {
    var pc := s.threads[t];
    var f := s.flags[pc.h];
    forall bits, mode, bits', mode', ok
      ensures Ready(AfterLeave(f, bits, mode, ok), bits', mode') ==> Ready(f, bits', mode')
      ensures Ready(AfterLeave(AfterEnter(f), bits, mode, ok), bits', mode') ==> Ready(f, bits', mode')
      ensures Ready(AfterClear(f, bits), bits', mode') ==> Ready(f, bits', mode')
      ensures Ready(AfterPoll(f, bits, mode), bits', mode') ==> Ready(f, bits', mode')
    {
      ClearingNeverReadies(f, bits, mode, ok, bits', mode');
      ClearingNeverReadies(AfterEnter(f), bits, mode, ok, bits', mode');
    }
  }

  /** Every step keeps the absence of lost wake-ups. */
  lemma NoLostWakeupKept(s: State, step: Step)
    requires RefsOk(s) && NoLostWakeup(s) && Enabled(s, step)
    ensures NoLostWakeup(Apply(s, step))
  {
    var s' := Apply(s, step);
    var t := step.t;
    if step.Advance? && !s.threads[t].Notifying? {
      AdvanceIsSafe(s, t);
      SafeSectionKeeps(s, s', t, s.threads[t].h);
    } else {
      forall v | StuckReady(s', v) ensures SomeoneNotifying(s', s'.threads[v].h) {
        assert StuckReady(s, v);
        var u :| u in s.threads && s.threads[u].Notifying? && s.threads[u].h == s.threads[v].h;
        assert s'.threads[u] == s.threads[u];
      }
    }
  }

  // ---- The waiters field ----

  predicate IsInside(pc: Pc, h: Handle) {
    (pc.Parked? || pc.Awake?) && pc.h == h
  }

  /** The threads that are inside Wait on flag h. */
  ghost function Inside(s: State, h: Handle): set<Tid> {
    set t | t in s.threads && IsInside(s.threads[t], h)
  }

  ghost predicate CountOk(s: State) {
    forall h <- s.flags :: s.flags[h].waiters == |Inside(s, h)|
  }

  /** How one thread's move changes the number of threads inside Wait. */
  lemma InsideMoves(s: State, s': State, t: Tid, h: Handle)
    requires t in s.threads && s'.threads.Keys == s.threads.Keys
    requires forall u <- s.threads | u != t :: s'.threads[u] == s.threads[u]
    ensures |Inside(s', h)| == |Inside(s, h)|
              + (if IsInside(s'.threads[t], h) then 1 else 0) - (if IsInside(s.threads[t], h) then 1 else 0)
  {
    var rest := Inside(s, h) - {t};
    assert Inside(s', h) == if IsInside(s'.threads[t], h) then rest + {t} else rest;
    assert Inside(s, h) == if IsInside(s.threads[t], h) then rest + {t} else rest;
  }

  /** A critical section counts its thread in and out of Wait. */
  ghost predicate CountedSection(s: State, s': State, t: Tid, h: Handle) {
    && t in s.threads && h in s.flags
    && s'.flags.Keys == s.flags.Keys && s'.threads.Keys == s.threads.Keys
    && (forall k <- s.flags | k != h :: s'.flags[k] == s.flags[k])
    && (forall u <- s.threads | u != t :: s'.threads[u] == s.threads[u])
    && (forall k | k != h :: !IsInside(s'.threads[t], k) && !IsInside(s.threads[t], k))
    && s'.flags[h].waiters == s.flags[h].waiters
         + (if IsInside(s'.threads[t], h) then 1 else 0) - (if IsInside(s.threads[t], h) then 1 else 0)
  }

  lemma AdvanceCounts(s: State, t: Tid)
    requires RefsOk(s) && Enabled(s, Advance(t)) && !s.threads[t].Notifying?
    ensures CountedSection(s, Apply(s, Advance(t)), t, s.threads[t].h)
  {
    hide Locked;
    var pc := s.threads[t];
    if pc.Found? {
      LockedCounts(s, t, pc.h, pc.op);
    }
  }

  lemma LockedCounts(s: State, t: Tid, h: Handle, op: Op)
    requires t in s.threads && s.threads[t] == Found(h, op) && h in s.flags
    ensures CountedSection(s, Locked(s, t, h, op), t, h)
  {
  }

  lemma CountedSectionKeeps(s: State, s': State, t: Tid, h: Handle)
    requires CountOk(s) && CountedSection(s, s', t, h)
    ensures CountOk(s')
  {
    forall k <- s'.flags ensures s'.flags[k].waiters == |Inside(s', k)| {
      InsideMoves(s, s', t, k);
    }
  }

  lemma NotifyCounts(s: State, t: Tid)
    requires CountOk(s) && Enabled(s, Advance(t)) && s.threads[t].Notifying?
    ensures CountOk(Apply(s, Advance(t)))
  {
    var s' := Apply(s, Advance(t));
    forall h <- s'.flags ensures Inside(s', h) == Inside(s, h) {
      forall u <- s.threads ensures IsInside(s'.threads[u], h) == IsInside(s.threads[u], h) {}
    }
  }

  lemma CountKept(s: State, step: Step)
    requires RefsOk(s) && CountOk(s) && Enabled(s, step)
    ensures CountOk(Apply(s, step))
  {
    var t := step.t;
    if step.Advance? {
      if s.threads[t].Notifying? {
        NotifyCounts(s, t);
      } else {
        AdvanceCounts(s, t);
        CountedSectionKeeps(s, Apply(s, step), t, s.threads[t].h);
      }
    } else {
      var s' := Apply(s, step);
      forall h <- s'.flags ensures s'.flags[h].waiters == |Inside(s', h)| {
        InsideMoves(s, s', t, h);
        if h !in s.flags {
          assert Inside(s, h) == {};
        }
      }
    }
  }

  // ---- Cancel and Delete ----

  /** `canceled` is up only while a Cancel is between its two critical sections. */
  ghost predicate CancelInFlight(s: State, h: Handle) {
    exists u <- s.threads :: s.threads[u] == Notifying(h, true) || s.threads[u] == Resetting(h)
  }

  ghost predicate CanceledOk(s: State) {
    forall h <- s.flags :: s.flags[h].canceled ==> CancelInFlight(s, h)
  }

  lemma CanceledKept(s: State, step: Step)
    requires RefsOk(s) && CanceledOk(s) && Enabled(s, step)
    ensures CanceledOk(Apply(s, step))
  {
    var s' := Apply(s, step);
    var t := step.t;
    forall h <- s'.flags | s'.flags[h].canceled ensures CancelInFlight(s', h) {
      if s'.threads[t] == Notifying(h, true) || s'.threads[t] == Resetting(h) {
      } else {
        var u :| u in s.threads && (s.threads[u] == Notifying(h, true) || s.threads[u] == Resetting(h));
        assert u != t && s'.threads[u] == s.threads[u];
      }
    }
  }

  /** A deleted flag is out of the registry for good. */
  ghost predicate DeletedOk(s: State) {
    && (forall h <- s.flags :: s.flags[h].deleted ==> h !in s.registry)
    && (forall t <- s.threads :: s.threads[t].Erased? ==> s.threads[t].h !in s.registry)
  }

  lemma DeletedKept(s: State, step: Step)
    requires RefsOk(s) && DeletedOk(s) && Enabled(s, step)
    ensures DeletedOk(Apply(s, step))
    ensures forall h <- s.flags :: s.flags[h].deleted ==> Apply(s, step).flags[h].deleted
  {
    if step.Advance? && !s.threads[step.t].Notifying? {
      AdvanceDeletes(s, step.t);
    } else {
      var s' := Apply(s, step);
      assert s'.registry <= s.registry + (s'.flags.Keys - s.flags.Keys);
      assert forall h <- s.flags :: s'.flags[h] == s.flags[h];
    }
  }

  lemma AdvanceDeletes(s: State, t: Tid)
    requires RefsOk(s) && DeletedOk(s) && Enabled(s, Advance(t)) && !s.threads[t].Notifying?
    ensures DeletedOk(Apply(s, Advance(t)))
    ensures forall h <- s.flags :: s.flags[h].deleted ==> Apply(s, Advance(t)).flags[h].deleted
  {
    var s' := Apply(s, Advance(t));
    var h := s.threads[t].h;
    assert s'.registry == s.registry || s'.registry == s.registry - {h};
    assert s'.flags[h].deleted ==> s.flags[h].deleted || s.threads[t].Erased?;
    assert s'.threads[t].Erased? ==> h !in s'.registry;
  }

  // ---- Refinement of an atomic flag ----

  /** The sequential flag: no mutex, no threads, one call at a time. */
  datatype Atomic = Atomic(pattern: iset<bv64>, canceled: bool, deleted: bool)

  /** What the sequential flag answers to a call. */
  ghost function AtomicOutcome(a: Atomic, op: Op): Outcome {
    match op
    case Wait(bits, mode) =>
      if a.canceled || a.deleted then Canceled else if Fulfilled(a.pattern, bits, mode) then Ok else TimedOut
    case Poll(bits, mode) => if Fulfilled(a.pattern, bits, mode) then Ok else TimedOut
    case _ => Ok
  }

  /** What a call makes of the sequential flag. */
  ghost function AtomicNext(a: Atomic, op: Op): Atomic {
    match op
    case Create(initial) => Atomic(initial, false, false)
    case Set(bits) => a.(pattern := a.pattern + bits)
    case Clear(bits) => a.(pattern := a.pattern * bits)
    case Poll(bits, mode) =>
      if AtomicOutcome(a, op) == Ok then a.(pattern := Remaining(a.pattern, bits, mode)) else a
    case Wait(bits, mode) =>
      if AtomicOutcome(a, op) == Ok then a.(pattern := Remaining(a.pattern, bits, mode)) else a
    case Cancel(p) => a.(pattern := p, canceled := true)
    case ResetCanceled => a.(canceled := false)
    case Delete => a.(deleted := true)
  }

  /** The sequential flag h after the calls of a log. */
  ghost function Replay(log: seq<Event>, h: Handle): Atomic {
    if |log| == 0 then Atomic(iset{}, false, false)
    else
      var a := Replay(log[..|log| - 1], h);
      if log[|log| - 1].h == h then AtomicNext(a, log[|log| - 1].op) else a
  }

  /** Every outcome and every reported pattern in the log is the sequential flag's. */
  ghost predicate Explained(log: seq<Event>, h: Handle) {
    |log| == 0 ||
    (var e := log[|log| - 1];
     var a := Replay(log[..|log| - 1], h);
     && Explained(log[..|log| - 1], h)
     && (e.h == h ==> e.outcome == AtomicOutcome(a, e.op) && (e.op.Create? || e.seen == a.pattern)))
  }

  ghost function AtomicView(f: Flag): Atomic {
    Atomic(f.pattern, f.canceled, f.deleted)
  }

  ghost predicate LogOk(s: State) {
    && (forall h :: Explained(s.log, h))
    && (forall h <- s.flags :: Replay(s.log, h) == AtomicView(s.flags[h]))
  }

  /** A critical section either leaves the sequential flag alone and logs nothing, or is one
      call of the sequential flag and logs that call. */
  ghost predicate AtomicSection(s: State, s': State, h: Handle) {
    && h in s.flags && s'.flags.Keys == s.flags.Keys
    && (forall k <- s.flags | k != h :: s'.flags[k] == s.flags[k])
    && var a := AtomicView(s.flags[h]);
       || (s'.log == s.log && AtomicView(s'.flags[h]) == a)
       || (&& |s'.log| == |s.log| + 1
           && var e := s'.log[|s.log|];
              && s'.log == s.log + [e]
              && e.h == h && e.seen == a.pattern
              && e.outcome == AtomicOutcome(a, e.op)
              && AtomicView(s'.flags[h]) == AtomicNext(a, e.op))
  }

  lemma LeaveIsAtomic(s: State, t: Tid, f: Flag, pc: Pc, ok: bool)
    requires pc.Parked? && pc.h in s.flags && AtomicView(f) == AtomicView(s.flags[pc.h])
    requires ok == Ready(f, pc.bits, pc.mode)
    ensures AtomicSection(s, Leave(s, t, pc.h, f, pc.bits, pc.mode, ok), pc.h)
  {
    var s' := Leave(s, t, pc.h, f, pc.bits, pc.mode, ok);
    var e := Event(pc.h, Wait(pc.bits, pc.mode), LeaveOutcome(f, ok), f.pattern, f.waiters);
    assert s'.log == s.log + [e];
    assert s'.log[|s.log|] == e;
  }

  lemma LockedIsAtomic(s: State, t: Tid, h: Handle, op: Op)
    requires h in s.flags && Callable(op)
    ensures AtomicSection(s, Locked(s, t, h, op), h)
  {
    var s' := Locked(s, t, h, op);
    var f := s.flags[h];
    if op.Wait? {
      if Ready(AfterEnter(f), op.bits, op.mode) {
        LeaveIsAtomic(s, t, AfterEnter(f), Parked(h, op.bits, op.mode), true);
      } else {
        assert s'.log == s.log;
      }
    } else if !op.Delete? {
      assert s'.log == s.log + [s'.log[|s.log|]];
    }
  }

  lemma AdvanceIsAtomic(s: State, t: Tid)
    requires RefsOk(s) && Enabled(s, Advance(t)) && !s.threads[t].Notifying?
    ensures AtomicSection(s, Apply(s, Advance(t)), s.threads[t].h)
  {
    var s' := Apply(s, Advance(t));
    var pc := s.threads[t];
    match pc
    case Found(h, op) => LockedIsAtomic(s, t, h, op);
    case Awake(h, bits, mode, timedOut) =>
      LeaveIsAtomic(s, t, s.flags[h], Parked(h, bits, mode), Ready(s.flags[h], bits, mode));
    case Erased(_) => assert s'.log == s.log + [s'.log[|s.log|]];
    case Resetting(_) => assert s'.log == s.log + [s'.log[|s.log|]];
    case _ =>
  }

  lemma ReplayOne(log: seq<Event>, e: Event, h: Handle)
    ensures Replay(log + [e], h) == if e.h == h then AtomicNext(Replay(log, h), e.op) else Replay(log, h)
    ensures Explained(log + [e], h) <==>
              (Explained(log, h)
               && (e.h == h ==> e.outcome == AtomicOutcome(Replay(log, h), e.op)
                                && (e.op.Create? || e.seen == Replay(log, h).pattern)))
  {
    assert (log + [e])[..|log + [e]| - 1] == log;
  }

  lemma AtomicSectionKeeps(s: State, s': State, h: Handle)
    requires LogOk(s) && AtomicSection(s, s', h)
    ensures LogOk(s')
  {
    if s'.log != s.log {
      forall k: Handle {
        ReplayOne(s.log, s'.log[|s.log|], k);
      }
    }
  }

  lemma LogKept(s: State, step: Step)
    requires RefsOk(s) && LogOk(s) && Enabled(s, step)
    ensures LogOk(Apply(s, step))
  {
    var s' := Apply(s, step);
    if step.Advance? && !s.threads[step.t].Notifying? {
      AdvanceIsAtomic(s, step.t);
      AtomicSectionKeeps(s, s', s.threads[step.t].h);
    } else if step.CreateFlag? {
      forall k: Handle {
        ReplayOne(s.log, Event(step.h, Create(step.initial), Ok, iset{}, 0), k);
      }
    }
  }

  // ---- Bit conservation ----

  /** An AND-mode call that succeeded, waited for b and cleared it. */
  ghost predicate Consumes(e: Event, h: Handle, b: bv64) {
    && e.h == h && e.outcome == Ok && (e.op.Wait? || e.op.Poll?)
    && b in e.op.bits && !e.op.mode.any && (e.op.mode.clearAll || e.op.mode.clearPattern)
  }

  ghost predicate Produces(e: Event, h: Handle, b: bv64) {
    && e.h == h
    && match e.op
       case Create(initial) => b in initial
       case Set(bits) => b in bits
       case Cancel(p) => b in p
       case _ => false
  }

  ghost function Consumed(log: seq<Event>, h: Handle, b: bv64): nat {
    if |log| == 0 then 0
    else Consumed(log[..|log| - 1], h, b) + (if Consumes(log[|log| - 1], h, b) then 1 else 0)
  }

  ghost function Produced(log: seq<Event>, h: Handle, b: bv64): nat {
    if |log| == 0 then 0
    else Produced(log[..|log| - 1], h, b) + (if Produces(log[|log| - 1], h, b) then 1 else 0)
  }

  lemma {:induction false} Conservation(log: seq<Event>, h: Handle, b: bv64)
    requires Explained(log, h)
    ensures Consumed(log, h, b) + (if b in Replay(log, h).pattern then 1 else 0) <= Produced(log, h, b)
  {
    if |log| > 0 {
      Conservation(log[..|log| - 1], h, b);
    }
  }

  // ---- Whole runs ----

  ghost predicate Invariant(s: State) {
    RefsOk(s) && NoLostWakeup(s) && CountOk(s) && CanceledOk(s) && DeletedOk(s) && LogOk(s)
  }

  lemma {:induction false} Reachable(s0: State, steps: seq<Step>)
    requires Init(s0)
    ensures Invariant(Exec(s0, steps))
    ensures Exec(s0, steps).threads.Keys == s0.threads.Keys
  {
    if |steps| == 0 {
    } else {
      var before := Exec(s0, steps[..|steps| - 1]);
      var step := steps[|steps| - 1];
      Reachable(s0, steps[..|steps| - 1]);
      if Enabled(before, step) {
        RefsKept(before, step);
        NoLostWakeupKept(before, step);
        CountKept(before, step);
        CanceledKept(before, step);
        DeletedKept(before, step);
        LogKept(before, step);
      }
    }
  }

  /** No lost wake-up, in every run: a parked waiter whose condition holds is about to be
      notified, and that notification wakes it. */
  lemma WakeupPending(s0: State, steps: seq<Step>, t: Tid) returns (u: Tid)
    requires Init(s0) && StuckReady(Exec(s0, steps), t)
    ensures var s := Exec(s0, steps);
            && u in s.threads && s.threads[u].Notifying? && s.threads[u].h == s.threads[t].h
            && Enabled(s, Advance(u)) && Apply(s, Advance(u)).threads[t].Awake?
  {
    Reachable(s0, steps);
    var s := Exec(s0, steps);
    u :| u in s.threads && s.threads[u].Notifying? && s.threads[u].h == s.threads[t].h;
  }

  /** Refinement, in every run: the calls took effect one at a time in the order of their
      critical sections, each with the outcome and the pattern of the sequential flag. */
  lemma RefinesAtomicFlag(s0: State, steps: seq<Step>, h: Handle, i: nat)
    requires Init(s0) && i < |Exec(s0, steps).log| && Exec(s0, steps).log[i].h == h
    ensures var log := Exec(s0, steps).log;
            var a := Replay(log[..i], h);
            && log[i].outcome == AtomicOutcome(a, log[i].op)
            && (log[i].op.Create? || log[i].seen == a.pattern)
            && (log[i].outcome == TimedOut ==> Replay(log[..i + 1], h) == a)
  {
    Reachable(s0, steps);
    var log := Exec(s0, steps).log;
    ExplainedPrefix(log, h, i + 1);
    assert log[..i + 1][..i] == log[..i];
  }

  lemma {:induction false} ExplainedPrefix(log: seq<Event>, h: Handle, n: nat)
    requires Explained(log, h) && n <= |log|
    ensures Explained(log[..n], h)
  {
    if n < |log| {
      ExplainedPrefix(log[..|log| - 1], h, n);
      assert log[..|log| - 1][..n] == log[..n];
    } else {
      assert log[..n] == log;
    }
  }

  /** The operation a thread is about to carry out, or to finish, on its flag. */
  function PendingOp(pc: Pc): Op
    requires pc.Found? || pc.Awake? || pc.Erased?
  {
    match pc
    case Found(_, op) => op
    case Erased(_) => Delete
    case Awake(_, bits, mode, _) => Wait(bits, mode)
  }

  /** A call logs its operation once, with the outcome that it hands its thread: at once, or after the notify_all
      that is still pending.  It logs nothing before that, asleep or between the two parts of a Delete. */
  lemma ReturnsLoggedOutcome(s: State, t: Tid)
    requires RefsOk(s) && Enabled(s, Advance(t))
    requires s.threads[t].Found? || s.threads[t].Awake? || s.threads[t].Erased?
    ensures var s' := Apply(s, Advance(t));
            var pc := s'.threads[t];
            if pc.Parked? || pc.Erased? then s'.log == s.log
            else
              && |s'.log| == |s.log| + 1 && s'.log[|s.log|].h == s.threads[t].h
              && s'.log[|s.log|].op == PendingOp(s.threads[t])
              && (pc == Guest(s'.log[|s.log|].outcome) || (pc.Notifying? && s'.log[|s.log|].outcome == Ok))
  {
  }

  /** A thread with a pending notify_all can only return Ok, and logs no further call. */
  lemma NotifierReturnsOk(s: State, t: Tid)
    requires RefsOk(s) && Enabled(s, Advance(t)) && (s.threads[t].Notifying? || s.threads[t].Resetting?)
    ensures var s' := Apply(s, Advance(t));
            && (s'.threads[t] == Guest(Ok) || (s.threads[t].Notifying? && s'.threads[t] == Resetting(s.threads[t].h)))
            && forall i | |s.log| <= i < |s'.log| :: s'.log[i].op.ResetCanceled?
  {
  }

  /** A thread's latest call, with what it has logged since, resets apart. */
  datatype Record = Record(h: Handle, op: Op, logged: seq<Event>)

  ghost function WithoutResets(log: seq<Event>): seq<Event> {
    if |log| == 0 then []
    else WithoutResets(log[..|log| - 1]) + if log[|log| - 1].op.ResetCanceled? then [] else [log[|log| - 1]]
  }

  /** What the log grew by in a step. */
  ghost function Grown(s: State, s': State): seq<Event>
    requires |s.log| <= |s'.log|
  {
    s'.log[|s.log|..]
  }

  /** The log only grows, by at most one entry a step. */
  lemma LogGrows(s: State, step: Step)
    requires Enabled(s, step)
    ensures var s' := Apply(s, step);
            |s.log| <= |s'.log| <= |s.log| + 1 && s'.log[..|s.log|] == s.log
  {
  }

  /** The record of thread t after one more step. */
  ghost function Noted(s: State, step: Step, t: Tid, record: Option<Record>): Option<Record>
    requires Enabled(s, step)
  {
    LogGrows(s, step);
    if step.t != t then record
    else
      match step
      case CreateFlag(_, h, initial) => Some(Record(h, Create(initial), Grown(s, Apply(s, step))))
      case Call(_, h, op) => Some(Record(h, op, []))
      case _ =>
        if record.None? then None
        else Some(record.value.(logged := record.value.logged + WithoutResets(Grown(s, Apply(s, step)))))
  }

  ghost function LatestCall(s0: State, steps: seq<Step>, t: Tid): Option<Record> {
    if |steps| == 0 then None
    else
      var before, last := Exec(s0, steps[..|steps| - 1]), steps[|steps| - 1];
      var record := LatestCall(s0, steps[..|steps| - 1], t);
      if Enabled(before, last) then Noted(before, last, t, record) else record
  }

  /** The call has logged itself once, with this outcome. */
  ghost predicate LoggedAs(r: Record, outcome: Outcome) {
    |r.logged| == 1 && r.logged[0].h == r.h && r.logged[0].op == r.op && r.logged[0].outcome == outcome
  }

  /** How the record of a thread agrees with where the thread is. */
  ghost predicate RecordOk(pc: Pc, record: Option<Record>) {
    match pc
    case Guest(last) => record.None? || LoggedAs(record.value, last) || (record.value.logged == [] && last == Invalid)
    case Found(h, op) => record == Some(Record(h, op, []))
    case Erased(h) => record == Some(Record(h, Delete, []))
    case Parked(h, bits, mode) => record == Some(Record(h, Wait(bits, mode), []))
    case Awake(h, bits, mode, _) => record == Some(Record(h, Wait(bits, mode), []))
    case Notifying(h, _) => record.Some? && record.value.h == h && LoggedAs(record.value, Ok)
    case Resetting(h) => record.Some? && record.value.h == h && LoggedAs(record.value, Ok)
  }

  /** Steps of other threads can only wake the thread. */
  lemma OthersOnlyWake(s: State, step: Step, t: Tid, record: Option<Record>)
    requires RefsOk(s) && Enabled(s, step) && step.t != t && t in s.threads && RecordOk(s.threads[t], record)
    ensures t in Apply(s, step).threads && RecordOk(Apply(s, step).threads[t], record)
  {
    hide RecordOk;
    if step.Advance? && s.threads[step.t].Notifying? {
      WakeKeepsRecord(s.threads[t], s.threads[step.t].h, record);
    } else if step.Advance? {
      OthersStay(s, step.t, t);
    }
  }

  lemma WakeKeepsRecord(pc: Pc, h: Handle, record: Option<Record>)
    requires RecordOk(pc, record)
    ensures RecordOk(Wake(pc, h), record)
  {
  }

  lemma OneLogged(e: Event)
    ensures WithoutResets([e]) == if e.op.ResetCanceled? then [] else [e]
    ensures WithoutResets([]) == []
  {
    assert [e][..0] == [];
  }

  /** A call that goes on keeps its flag and its arguments. */
  lemma GoesOnAsCalled(s: State, t: Tid)
    requires RefsOk(s) && Enabled(s, Advance(t))
    requires s.threads[t].Found? || s.threads[t].Awake? || s.threads[t].Erased?
    ensures var pc, op := Apply(s, Advance(t)).threads[t], PendingOp(s.threads[t]);
            && !op.ResetCanceled?
            && (!pc.Guest? ==> pc.h == s.threads[t].h)
            && (pc.Parked? ==> op == Wait(pc.bits, pc.mode)) && (pc.Erased? ==> op == Delete)
            && !pc.Found? && !pc.Awake? && !pc.Resetting?
  {
  }

  /** A step of the thread itself keeps its record right. */
  lemma OwnStepNoted(s: State, t: Tid, record: Option<Record>)
    requires RefsOk(s) && Enabled(s, Advance(t)) && RecordOk(s.threads[t], record)
    ensures RecordOk(Apply(s, Advance(t)).threads[t], Noted(s, Advance(t), t, record))
  {
    hide Apply, Fulfilled, Remaining, Replay, Locked, Leave, Move;
    var s' := Apply(s, Advance(t));
    LogGrows(s, Advance(t));
    if s'.log == s.log {
      assert Grown(s, s') == [];
      NothingMore(record);
    } else {
      assert Grown(s, s') == [s'.log[|s.log|]];
      NothingMore(record);
      OneLogged(s'.log[|s.log|]);
    }
    if s.threads[t].Found? || s.threads[t].Awake? || s.threads[t].Erased? {
      ReturnsLoggedOutcome(s, t);
      GoesOnAsCalled(s, t);
    } else {
      NotifierReturnsOk(s, t);
    }
  }

  lemma RecordKept(s: State, step: Step, t: Tid, record: Option<Record>)
    requires RefsOk(s) && Enabled(s, step) && t in s.threads && RecordOk(s.threads[t], record)
    ensures t in Apply(s, step).threads && RecordOk(Apply(s, step).threads[t], Noted(s, step, t, record))
  {
    LogGrows(s, step);
    if step.t != t {
      OthersOnlyWake(s, step, t, record);
    } else if step.Advance? {
      OwnStepNoted(s, t, record);
    } else {
      NothingElseLogged(s, step, record);
    }
  }

  lemma NothingElseLogged(s: State, step: Step, record: Option<Record>)
    requires RefsOk(s) && Enabled(s, step) && !step.Advance? && RecordOk(s.threads[step.t], record)
    ensures RecordOk(Apply(s, step).threads[step.t], Noted(s, step, step.t, record))
  {
    var s' := Apply(s, step);
    LogGrows(s, step);
    if step.CreateFlag? {
      assert Grown(s, s') == [s'.log[|s.log|]];
    } else {
      assert Grown(s, s') == [];
      NothingMore(record);
    }
  }

  lemma NothingMore(record: Option<Record>)
    ensures record.Some? ==> record.value.(logged := record.value.logged + WithoutResets([])) == record.value
  {
    assert record.Some? ==> record.value.logged + [] == record.value.logged;
  }

  /** In every run, a call that has returned has logged itself exactly once since it was made, with the outcome that it
      returned; only a call for an unknown flag has logged nothing.  A call that has not returned has logged nothing, or
      itself with the outcome Ok that it is going to return. */
  lemma {:induction false} CallsLogOnce(s0: State, steps: seq<Step>, t: Tid)
    requires Init(s0) && t in s0.threads
    ensures t in Exec(s0, steps).threads && RecordOk(Exec(s0, steps).threads[t], LatestCall(s0, steps, t))
  {
    hide Apply, Enabled, RecordOk, Noted;
    if |steps| == 0 {
      assert RecordOk(s0.threads[t], None) by { NoCallYet(s0, t); }
    } else {
      var before, last := steps[..|steps| - 1], steps[|steps| - 1];
      CallsLogOnce(s0, before, t);
      ReachableRefs(s0, before);
      if Enabled(Exec(s0, before), last) {
        RecordKept(Exec(s0, before), last, t, LatestCall(s0, before, t));
      }
    }
  }

  lemma NoCallYet(s0: State, t: Tid)
    requires Init(s0) && t in s0.threads
    ensures RecordOk(s0.threads[t], None)
  {
  }

  /** Bit conservation, in every run: AND-mode clearing successes never outnumber the
      occasions on which the bit was put into the flag. */
  lemma BitsConserved(s0: State, steps: seq<Step>, h: Handle, b: bv64)
    requires Init(s0)
    ensures Consumed(Exec(s0, steps).log, h, b) <= Produced(Exec(s0, steps).log, h, b)
  {
    Reachable(s0, steps);
    Conservation(Exec(s0, steps).log, h, b);
  }

  /** Cancel reports exactly the number of threads that are inside Wait. */
  lemma CancelReportsWaiters(s0: State, steps: seq<Step>, t: Tid, h: Handle, p: iset<bv64>)
    requires Init(s0) && t in Exec(s0, steps).threads && Exec(s0, steps).threads[t] == Found(h, Cancel(p))
    ensures var s := Exec(s0, steps);
            && Enabled(s, Advance(t))
            && Apply(s, Advance(t)).log == s.log + [Event(h, Cancel(p), Ok, s.flags[h].pattern, |Inside(s, h)|)]
  {
    Reachable(s0, steps);
  }

  // ---- Who notices a Cancel ----

  /** Thread t is about to test its predicate under the mutex. */
  predicate AboutToTest(pc: Pc) {
    pc.Awake? || (pc.Found? && pc.op.Wait?)
  }

  predicate Raises(e: Event, h: Handle) {
    e.h == h && e.op.Cancel?
  }

  predicate Lowers(e: Event, h: Handle) {
    e.h == h && (e.op.ResetCanceled? || e.op.Create?)
  }

  /** The last Cancel, reset or creation of h in the log is a Cancel. */
  ghost predicate CancelLast(log: seq<Event>, h: Handle) {
    exists i | 0 <= i < |log| :: Raises(log[i], h) && forall j | i < j < |log| :: !Lowers(log[j], h)
  }

  lemma CancelLastOne(log: seq<Event>, e: Event, h: Handle)
    ensures CancelLast(log + [e], h) <==> Raises(e, h) || (CancelLast(log, h) && !Lowers(e, h))
  {
    var longer := log + [e];
    assert longer[|log|] == e && forall i | 0 <= i < |log| :: longer[i] == log[i];
    if CancelLast(log, h) && !Lowers(e, h) {
      var i :| 0 <= i < |log| && Raises(log[i], h) && forall j | i < j < |log| :: !Lowers(log[j], h);
      assert Raises(longer[i], h);
    }
    if CancelLast(longer, h) && !Raises(e, h) {
      var i :| 0 <= i < |longer| && Raises(longer[i], h) && forall j | i < j < |longer| :: !Lowers(longer[j], h);
      assert Raises(log[i], h) && !Lowers(longer[|log|], h);
      assert forall j | i < j < |log| :: !Lowers(longer[j], h);
    }
  }

  lemma {:induction false} CanceledByLog(log: seq<Event>, h: Handle)
    ensures Replay(log, h).canceled <==> CancelLast(log, h)
  {
    hide CancelLast;
    if |log| == 0 {
      NoCancelYet(h);
    } else {
      var before, e := log[..|log| - 1], log[|log| - 1];
      CanceledByLog(before, h);
      CancelLastOne(before, e, h);
      assert log == before + [e];
    }
  }

  lemma NoCancelYet(h: Handle)
    ensures !CancelLast([], h)
  {
  }

  /** In every run, a waiter that holds the mutex returns ECANCELED exactly when the flag is deleted or the last
      Cancel or reset that took effect on it is a Cancel. */
  lemma CanceledIffCancelLast(s0: State, steps: seq<Step>, t: Tid)
    requires Init(s0) && Enabled(Exec(s0, steps), Advance(t)) && AboutToTest(Exec(s0, steps).threads[t])
    ensures var s := Exec(s0, steps);
            var h := s.threads[t].h;
            (Apply(s, Advance(t)).threads[t] == Guest(Canceled)) <==>
              (Replay(s.log, h).deleted || CancelLast(s.log, h))
  {
    hide CancelLast, Replay, Explained;
    Reachable(s0, steps);
    var s := Exec(s0, steps);
    CanceledByLog(s.log, s.threads[t].h);
    assert Replay(s.log, s.threads[t].h) == AtomicView(s.flags[s.threads[t].h]);
  }

  /** Thread u is between the two critical sections of a Cancel of h. */
  predicate Canceling(pc: Pc, h: Handle) {
    pc == Notifying(h, true) || pc == Resetting(h)
  }

  ghost predicate OneCancel(s: State, h: Handle) {
    forall u <- s.threads, v <- s.threads | Canceling(s.threads[u], h) && Canceling(s.threads[v], h) :: u == v
  }

  /** At no time of the run are two Cancels of h under way. */
  ghost predicate NoOverlap(s0: State, steps: seq<Step>, h: Handle) {
    forall n | 0 <= n <= |steps| :: OneCancel(Exec(s0, steps[..n]), h)
  }

  /** `canceled` is up all the while that a Cancel is under way. */
  ghost predicate CancelShows(s: State, h: Handle) {
    h in s.flags && CancelInFlight(s, h) ==> s.flags[h].canceled
  }

  lemma CancelShowsKept(s: State, step: Step, h: Handle)
    requires RefsOk(s) && OneCancel(s, h) && CancelShows(s, h) && Enabled(s, step)
    ensures CancelShows(Apply(s, step), h)
  {
    var s', t := Apply(s, step), step.t;
    if u :| u in s'.threads && Canceling(s'.threads[u], h) {
      if step.Advance? && !s.threads[t].Notifying? {
        OthersStay(s, t, u);
        OnlyOne(s, h, u, t);
      } else {
        assert Canceling(s.threads[u], h);
      }
    }
  }

  lemma OnlyOne(s: State, h: Handle, u: Tid, t: Tid)
    requires OneCancel(s, h)
    ensures u in s.threads && t in s.threads && Canceling(s.threads[u], h) && Canceling(s.threads[t], h) ==> u == t
  {
  }

  /** A critical section moves only its own thread and lowers `canceled` only as a reset. */
  lemma OthersStay(s: State, t: Tid, u: Tid)
    requires RefsOk(s) && Enabled(s, Advance(t)) && !s.threads[t].Notifying?
    ensures var s' := Apply(s, Advance(t));
            && (u in s.threads && u != t ==> u in s'.threads && s'.threads[u] == s.threads[u])
            && (forall h <- s.flags :: h in s'.flags &&
                 (s.flags[h].canceled && !s'.flags[h].canceled ==> s.threads[t] == Resetting(h)) &&
                 (Canceling(s'.threads[t], h) ==> s'.flags[h].canceled))
  {
  }

  lemma {:induction false} SoloCancelShows(s0: State, steps: seq<Step>, h: Handle)
    requires Init(s0) && NoOverlap(s0, steps, h)
    ensures CancelShows(Exec(s0, steps), h)
  {
    hide OneCancel, Apply, Enabled, Invariant;
    if |steps| == 0 {
      assert CancelShows(s0, h);
    } else {
      var n := |steps| - 1;
      var earlier := steps[..n];
      forall k | 0 <= k <= n ensures OneCancel(Exec(s0, earlier[..k]), h) {
        assert earlier[..k] == steps[..k];
      }
      SoloCancelShows(s0, earlier, h);
      ReachableRefs(s0, earlier);
      assert earlier[..n] == earlier;
      if Enabled(Exec(s0, earlier), steps[n]) {
        CancelShowsKept(Exec(s0, earlier), steps[n], h);
      }
    }
  }

  lemma ReachableRefs(s0: State, steps: seq<Step>)
    requires Init(s0)
    ensures RefsOk(Exec(s0, steps)) && CanceledOk(Exec(s0, steps))
  {
    Reachable(s0, steps);
  }

  /** As long as Cancels of its flag do not overlap, a waiter that holds the mutex returns ECANCELED exactly when
      it comes in time, before the Cancel has reset the flag, or when the flag is deleted. */
  lemma CanceledIffInTime(s0: State, steps: seq<Step>, t: Tid)
    requires Init(s0) && Enabled(Exec(s0, steps), Advance(t)) && AboutToTest(Exec(s0, steps).threads[t])
    requires NoOverlap(s0, steps, Exec(s0, steps).threads[t].h)
    ensures var s := Exec(s0, steps);
            var h := s.threads[t].h;
            (Apply(s, Advance(t)).threads[t] == Guest(Canceled)) <==> (s.flags[h].deleted || CancelInFlight(s, h))
  {
    hide NoOverlap;
    ReachableRefs(s0, steps);
    SoloCancelShows(s0, steps, Exec(s0, steps).threads[t].h);
  }

  // ---- Runs in which a Cancel is missed ----

  /** One more enabled step at the end of a run. */
  lemma Then(s0: State, steps: seq<Step>, s: State, step: Step) returns (s': State)
    requires Exec(s0, steps) == s && Enabled(s, step)
    ensures s' == Apply(s, step) && Exec(s0, steps + [step]) == s'
  {
    assert (steps + [step])[..|steps|] == steps;
    s' := Apply(s, step);
  }

  /** Three threads and one flag, without events and with one thread inside Wait. */
  ghost function Scene(pc0: Pc, pc1: Pc, pc2: Pc, canceled: bool, log: seq<Event>): State {
    State(map[1 := Flag(iset{}, 1, canceled, false)], {1}, map[0 := pc0, 1 := pc1, 2 := pc2], log)
  }

  ghost function AllOf1(): Pc { Parked(1, iset{1}, Mode(false, false, false)) }

  ghost function Woken(): Pc { Awake(1, iset{1}, Mode(false, false, false), false) }

  ghost function Canceled1(): Event { Event(1, Cancel(iset{}), Ok, iset{}, 1) }

  ghost function Reset1(): Event { Event(1, ResetCanceled, Ok, iset{}, 1) }

  /** Thread 1 is the only waiter. */
  lemma OneWaits() returns (s0: State, steps: seq<Step>)
    ensures Init(s0)
    ensures Exec(s0, steps) == Scene(Guest(Ok), AllOf1(), Guest(Ok), false, [Event(1, Create(iset{}), Ok, iset{}, 0)])
  {
    var mode := Mode(false, false, false);
    s0 := State(map[], {}, map[0 := Guest(Ok), 1 := Guest(Ok), 2 := Guest(Ok)], []);
    var s := s0;
    assert 1 in iset{1 as bv64};
    assert Exec(s0, []) == s;
    s := Then(s0, [], s, CreateFlag(0, 1, iset{}));
    steps := [CreateFlag(0, 1, iset{})];
    s := Then(s0, steps, s, Call(1, 1, Wait(iset{1}, mode)));
    steps := steps + [Call(1, 1, Wait(iset{1}, mode))];
    s := Then(s0, steps, s, Advance(1));
    steps := steps + [Advance(1)];
    assert s.log == [Event(1, Create(iset{}), Ok, iset{}, 0)];
  }

  /** The scene with thread t, one of 0 and 2, at pc. */
  ghost function With(t: Tid, pc: Pc, pc1: Pc, other: Pc, canceled: bool, log: seq<Event>): State {
    if t == 0 then Scene(pc, pc1, other, canceled, log) else Scene(other, pc1, pc, canceled, log)
  }

  lemma LooksUp(t: Tid, pc1: Pc, other: Pc, canceled: bool, log: seq<Event>)
    requires t == 0 || t == 2
    ensures var s := With(t, Guest(Ok), pc1, other, canceled, log);
            Enabled(s, Call(t, 1, Cancel(iset{}))) &&
            Apply(s, Call(t, 1, Cancel(iset{}))) == With(t, Found(1, Cancel(iset{})), pc1, other, canceled, log)
  {
  }

  lemma Raised(t: Tid, pc1: Pc, other: Pc, canceled: bool, log: seq<Event>)
    requires t == 0 || t == 2
    ensures var s := With(t, Found(1, Cancel(iset{})), pc1, other, canceled, log);
            Enabled(s, Advance(t)) &&
            Apply(s, Advance(t)) == With(t, Notifying(1, true), pc1, other, true, log + [Canceled1()])
  {
    hide Fulfilled, Remaining, Ready;
  }

  /** Thread t looks the flag up and carries out the first critical section of a Cancel. */
  lemma CancelBegins(s0: State, steps: seq<Step>, t: Tid, pc1: Pc, other: Pc, canceled: bool, log: seq<Event>)
    returns (more: seq<Step>)
    requires Exec(s0, steps) == With(t, Guest(Ok), pc1, other, canceled, log) && (t == 0 || t == 2)
    ensures Exec(s0, more) == With(t, Notifying(1, true), pc1, other, true, log + [Canceled1()])
  {
    hide Exec, Apply, Enabled, With;
    LooksUp(t, pc1, other, canceled, log);
    var s := Then(s0, steps, Exec(s0, steps), Call(t, 1, Cancel(iset{})));
    more := steps + [Call(t, 1, Cancel(iset{}))];
    Raised(t, pc1, other, canceled, log);
    s := Then(s0, more, s, Advance(t));
    more := more + [Advance(t)];
  }

  lemma Wakes(t: Tid, other: Pc, canceled: bool, log: seq<Event>)
    requires (t == 0 || t == 2) && !other.Parked?
    ensures var s := With(t, Notifying(1, true), AllOf1(), other, canceled, log);
            Enabled(s, Advance(t)) && Apply(s, Advance(t)) == With(t, Resetting(1), Woken(), other, canceled, log)
  {
    hide Fulfilled, Remaining, Ready, Locked, Leave, Move;
  }

  /** Thread t's notify_all wakes thread 1. */
  lemma CancelWakes(s0: State, steps: seq<Step>, t: Tid, other: Pc, canceled: bool, log: seq<Event>)
    returns (more: seq<Step>)
    requires Exec(s0, steps) == With(t, Notifying(1, true), AllOf1(), other, canceled, log)
    requires (t == 0 || t == 2) && !other.Parked?
    ensures Exec(s0, more) == With(t, Resetting(1), Woken(), other, canceled, log)
  {
    hide Exec, Apply, Enabled, With;
    Wakes(t, other, canceled, log);
    var s := Then(s0, steps, Exec(s0, steps), Advance(t));
    more := steps + [Advance(t)];
  }

  lemma Resets(other: Pc, log: seq<Event>)
    ensures var s := With(0, Resetting(1), Woken(), other, true, log);
            Enabled(s, Advance(0)) &&
            Apply(s, Advance(0)) == With(0, Guest(Ok), Woken(), other, false, log + [Reset1()])
  {
    hide Fulfilled, Remaining, Ready;
  }

  /** Thread 0's reset lowers the field before thread 1, already awake, holds the mutex; thread 1 parks again. */
  lemma ResetFirst(s0: State, steps: seq<Step>, other: Pc, log: seq<Event>) returns (more: seq<Step>)
    requires Exec(s0, steps) == With(0, Resetting(1), Woken(), other, true, log)
    ensures Exec(s0, more) == With(0, Guest(Ok), AllOf1(), other, false, log + [Reset1()])
  {
    hide Exec, Apply, Enabled;
    Resets(other, log);
    var s := Then(s0, steps, Exec(s0, steps), Advance(0));
    more := steps + [Advance(0)];
    more := ParksAgain(s0, more, Guest(Ok), other, log + [Reset1()]);
  }

  lemma ParksAgain(s0: State, steps: seq<Step>, pc0: Pc, pc2: Pc, log: seq<Event>) returns (more: seq<Step>)
    requires Exec(s0, steps) == Scene(pc0, Woken(), pc2, false, log)
    ensures more == steps + [Advance(1)] && Exec(s0, more) == Scene(pc0, AllOf1(), pc2, false, log)
  {
    assert 1 in iset{1 as bv64};
    var s := Then(s0, steps, Exec(s0, steps), Advance(1));
    more := steps + [Advance(1)];
  }

  /** A waiter woken by Cancel can come too late and go back to sleep. */
  lemma CancelCanBeMissed() returns (s0: State, steps: seq<Step>)
    ensures Init(s0) && Exec(s0, steps).threads == map[0 := Guest(Ok), 1 := AllOf1(), 2 := Guest(Ok)]
    ensures |Exec(s0, steps).log| == 3 && Exec(s0, steps).log[1] == Event(1, Cancel(iset{}), Ok, iset{}, 1)
  {
    hide Exec, Apply, Init;
    var log := [Event(1, Create(iset{}), Ok, iset{}, 0)];
    s0, steps := OneWaits();
    steps := CancelBegins(s0, steps, 0, AllOf1(), Guest(Ok), false, log);
    steps := CancelWakes(s0, steps, 0, Guest(Ok), true, log + [Canceled1()]);
    steps := ResetFirst(s0, steps, Guest(Ok), log + [Canceled1()]);
  }

  /** When Cancels overlap, a waiter can even come before the Cancel that woke it has reset the flag, and still miss
      it: the other Cancel's reset came first. */
  lemma OverlappingCancelMissed() returns (s0: State, steps: seq<Step>, woken: State)
    ensures Init(s0) && |steps| > 0 && Exec(s0, steps[..|steps| - 1]) == woken && steps[|steps| - 1] == Advance(1)
    ensures woken.threads == map[0 := Guest(Ok), 1 := Woken(), 2 := Resetting(1)]
    ensures Exec(s0, steps).threads == map[0 := Guest(Ok), 1 := AllOf1(), 2 := Resetting(1)]
  {
    hide Exec, Apply, Init;
    var log := [Event(1, Create(iset{}), Ok, iset{}, 0)];
    s0, steps := OneWaits();
    steps := CancelBegins(s0, steps, 0, AllOf1(), Guest(Ok), false, log);
    log := log + [Canceled1()];
    steps := CancelBegins(s0, steps, 2, AllOf1(), Notifying(1, true), true, log);
    log := log + [Canceled1()];
    steps := CancelWakes(s0, steps, 0, Notifying(1, true), true, log);
    steps := ResetFirst(s0, steps, Notifying(1, true), log);
    log := log + [Reset1()];
    steps := CancelWakes(s0, steps, 2, Guest(Ok), false, log);
    woken := Exec(s0, steps);
    var before := steps;
    steps := ParksAgain(s0, steps, Guest(Ok), Resetting(1), log);
    assert steps[..|steps| - 1] == before;
  }

  /** Once a flag is deleted, every later call with its handle fails. */
  lemma DeletedStaysInvalid(s0: State, steps: seq<Step>, t: Tid, h: Handle, op: Op)
    requires Init(s0) && h in Exec(s0, steps).flags && Exec(s0, steps).flags[h].deleted
    requires Enabled(Exec(s0, steps), Call(t, h, op))
    ensures Apply(Exec(s0, steps), Call(t, h, op)).threads[t] == Guest(Invalid)
  {
    Reachable(s0, steps);
  }

  /** With no Cancel under way, `canceled` is down: a canceled flag can be used again. */
  lemma CancelIsOneShot(s0: State, steps: seq<Step>, h: Handle)
    requires Init(s0) && h in Exec(s0, steps).flags && !CancelInFlight(Exec(s0, steps), h)
    ensures !Exec(s0, steps).flags[h].canceled
  {
    Reachable(s0, steps);
  }
}
