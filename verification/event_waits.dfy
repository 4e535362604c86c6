/** How a wait ends: timeouts are returned, spurious wake-ups are not, and calls find the flags that exist. */
module EventWaits {

  import opened Options
  import opened EventPatterns
  import opened EventFlagObject
  import opened EventFlagSystem

  /** The state after enabled steps of threads other than t; other steps are skipped. */
  ghost function OthersRun(s: State, t: Tid, steps: seq<Step>): State
    decreases |steps|
  {
    if |steps| == 0 then s
    else if steps[0].t != t && Enabled(s, steps[0]) then OthersRun(Apply(s, steps[0]), t, steps[1..])
    else OthersRun(s, t, steps[1..])
  }

  // ---- A timeout is returned ----

  /** Only its own steps move a thread that is awake. */
  lemma AwakeStays(s: State, step: Step, t: Tid)
    requires RefsOk(s) && Enabled(s, step) && step.t != t && t in s.threads && s.threads[t].Awake?
    ensures RefsOk(Apply(s, step)) && t in Apply(s, step).threads && Apply(s, step).threads[t] == s.threads[t]
  {
    hide Locked, Leave, Move;
    RefsKept(s, step);
    if step.Advance? && s.threads[step.t].Notifying? {
    } else if step.Advance? {
      OthersStay(s, step.t, t);
    }
  }

  lemma {:induction false} AwakeThroughout(s: State, t: Tid, steps: seq<Step>)
    requires RefsOk(s) && t in s.threads && s.threads[t].Awake?
    ensures var r := OthersRun(s, t, steps);
            RefsOk(r) && t in r.threads && r.threads[t] == s.threads[t]
    decreases |steps|
  {
    hide Apply, Enabled, RefsOk;
    if |steps| > 0 {
      if steps[0].t != t && Enabled(s, steps[0]) {
        AwakeStays(s, steps[0], t);
        AwakeThroughout(Apply(s, steps[0]), t, steps[1..]);
      } else {
        AwakeThroughout(s, t, steps[1..]);
      }
    }
  }

  /** After a timeout the wait ends as soon as its thread holds the mutex, whatever the other threads do before:
      cancelled, or with its condition, which may have come true in the meantime, or timed out; and the waiter is
      counted out. */
  lemma TimeoutReturns(s: State, t: Tid, bits: iset<bv64>, mode: Mode, h: Handle, steps: seq<Step>)
    requires RefsOk(s) && t in s.threads && s.threads[t] == Parked(h, bits, mode)
    ensures Enabled(s, TimeOut(t))
    ensures var r := OthersRun(Apply(s, TimeOut(t)), t, steps);
            && Enabled(r, Advance(t)) && h in r.flags
            && var f := r.flags[h];
               var outcome := if f.canceled || f.deleted then Canceled
                              else if Fulfilled(f.pattern, bits, mode) then Ok
                              else TimedOut;
               var e := Apply(r, Advance(t));
               && e.threads[t] == Guest(outcome)
               && h in e.flags && e.flags[h].waiters == f.waiters - 1
               && e.flags[h].pattern == (if outcome == Ok then Remaining(f.pattern, bits, mode) else f.pattern)
               && e.log == r.log + [Event(h, Wait(bits, mode), outcome, f.pattern, f.waiters)]
  {
    hide OthersRun, Fulfilled, Remaining, Locked;
    AwakeThroughout(Apply(s, TimeOut(t)), t, steps);
  }

  /** A waiter that was woken without a timeout ends only cancelled or with its condition; otherwise it goes back to
      sleep. */
  lemma WakeupReturns(s: State, t: Tid)
    requires RefsOk(s) && Enabled(s, Advance(t)) && s.threads[t].Awake? && !s.threads[t].timedOut
    ensures var pc := s.threads[t];
            var f := s.flags[pc.h];
            Apply(s, Advance(t)).threads[t] ==
              if f.canceled || f.deleted then Guest(Canceled)
              else if Fulfilled(f.pattern, pc.bits, pc.mode) then Guest(Ok)
              else Parked(pc.h, pc.bits, pc.mode)
  {
    hide Fulfilled, Remaining, Locked;
  }

  // ---- Nothing else is a timeout ----

  /** Since thread t last went to sleep, its wait has timed out. */
  ghost predicate TimedSince(s0: State, steps: seq<Step>, t: Tid) {
    if |steps| == 0 then false
    else
      var before, last := Exec(s0, steps[..|steps| - 1]), steps[|steps| - 1];
      if last.t != t || !Enabled(before, last) then TimedSince(s0, steps[..|steps| - 1], t)
      else last.TimeOut?
  }

  ghost predicate TimeNoted(pc: Pc, timed: bool) {
    pc.Awake? ==> pc.timedOut == timed
  }

  lemma OwnTime(s: State, step: Step)
    requires RefsOk(s) && Enabled(s, step)
    ensures step.t in Apply(s, step).threads && TimeNoted(Apply(s, step).threads[step.t], step.TimeOut?)
  {
    hide Fulfilled, Remaining;
  }

  lemma OthersTime(s: State, step: Step, t: Tid, timed: bool)
    requires RefsOk(s) && Enabled(s, step) && step.t != t && t in s.threads && TimeNoted(s.threads[t], timed)
    requires s.threads[t].Parked? ==> !timed
    ensures t in Apply(s, step).threads && TimeNoted(Apply(s, step).threads[t], timed)
    ensures Apply(s, step).threads[t].Parked? ==> s.threads[t].Parked?
  {
    hide Fulfilled, Remaining, Locked, Leave, Move;
    if step.Advance? && !s.threads[step.t].Notifying? {
      OthersStay(s, step.t, t);
    }
  }

  lemma {:induction false} TimeIsNoted(s0: State, steps: seq<Step>, t: Tid)
    requires Init(s0) && t in s0.threads
    ensures var s := Exec(s0, steps);
            t in s.threads && TimeNoted(s.threads[t], TimedSince(s0, steps, t)) &&
            (s.threads[t].Parked? ==> !TimedSince(s0, steps, t))
  {
    hide Apply, Enabled, TimeNoted, RefsOk;
    if |steps| == 0 {
      NotAwake(s0, t);
    } else {
      var before, last := steps[..|steps| - 1], steps[|steps| - 1];
      TimeIsNoted(s0, before, t);
      ReachableRefs(s0, before);
      var s := Exec(s0, before);
      if Enabled(s, last) {
        if last.t == t {
          OwnTime(s, last);
          TimeoutWakes(s, last);
        } else {
          OthersTime(s, last, t, TimedSince(s0, before, t));
        }
      }
    }
  }

  lemma NotAwake(s0: State, t: Tid)
    requires Init(s0) && t in s0.threads
    ensures TimeNoted(s0.threads[t], false) && !s0.threads[t].Parked?
  {
  }

  lemma TimeoutWakes(s: State, step: Step)
    requires Enabled(s, step)
    ensures step.TimeOut? ==> step.t in Apply(s, step).threads && Apply(s, step).threads[step.t].Awake?
  {
  }

  /** In every run, a wait returns a timeout only if its thread timed out since it last went to sleep. */
  lemma OnlyTimeoutsTimeOut(s0: State, steps: seq<Step>, t: Tid)
    requires Init(s0) && Enabled(Exec(s0, steps), Advance(t)) && AboutToTest(Exec(s0, steps).threads[t])
    requires Apply(Exec(s0, steps), Advance(t)).threads[t] == Guest(TimedOut)
    ensures Exec(s0, steps).threads[t].Awake? && TimedSince(s0, steps, t)
  {
    hide Fulfilled, Remaining, TimedSince, Exec;
    Reachable(s0, steps);
    TimeIsNoted(s0, steps, t);
  }

  // ---- Calls find the flags that exist ----

  ghost predicate BeingDeleted(s: State, h: Handle) {
    exists u <- s.threads :: s.threads[u] == Erased(h)
  }

  /** A flag is in the registry unless it is deleted or a Delete has taken it out and not yet marked it. */
  ghost predicate RegistryOk(s: State) {
    forall h <- s.flags :: h in s.registry <==> !s.flags[h].deleted && !BeingDeleted(s, h)
  }

  lemma RegistryKept(s: State, step: Step)
    requires RefsOk(s) && RegistryOk(s) && Enabled(s, step)
    ensures RegistryOk(Apply(s, step))
  {
    hide Fulfilled, Remaining, Locked;
    if step.Advance? && !s.threads[step.t].Notifying? {
      SectionKeepsRegistry(s, step.t);
    } else {
      QuietKeepsRegistry(s, step);
    }
  }

  lemma QuietKeepsRegistry(s: State, step: Step)
    requires RefsOk(s) && RegistryOk(s) && Enabled(s, step)
    requires step.Advance? ==> s.threads[step.t].Notifying?
    ensures RegistryOk(Apply(s, step))
  {
    var s' := Apply(s, step);
    forall h <- s'.flags
      ensures h in s'.registry <==> !s'.flags[h].deleted && !BeingDeleted(s', h)
    {
      assert forall u <- s.threads :: s'.threads[u] == Erased(h) <==> s.threads[u] == Erased(h);
      assert BeingDeleted(s', h) <==> BeingDeleted(s, h);
    }
  }

  /** What a critical section of thread t, which was at pc, does to the registry and to the threads inside Delete. */
  ghost predicate SectionOf(s: State, s': State, t: Tid, pc: Pc) {
    && !pc.Guest? && t in s'.threads
    && s'.threads.Keys == s.threads.Keys && s'.flags.Keys == s.flags.Keys
    && (forall u <- s.threads | u != t :: s'.threads[u] == s.threads[u])
    && (forall h <- s.flags :: s'.flags[h].deleted == (s.flags[h].deleted || pc == Erased(h)))
    && (if pc == Found(pc.h, Delete) then s'.registry == s.registry - {pc.h} && s'.threads[t] == Erased(pc.h)
        else s'.registry == s.registry && !s'.threads[t].Erased?)
  }

  lemma LockedSection(s: State, t: Tid, h: Handle, op: Op)
    requires h in s.flags && t in s.threads && Callable(op)
    requires s.threads[t] == Found(h, op)
    ensures SectionOf(s, Locked(s, t, h, op), t, Found(h, op))
  {
    hide Ready, Remaining, Fulfilled;
  }

  lemma LeaveSection(s: State, t: Tid, h: Handle, bits: iset<bv64>, mode: Mode, ok: bool)
    requires h in s.flags && t in s.threads && s.threads[t].Awake?
    ensures SectionOf(s, Leave(s, t, h, s.flags[h], bits, mode, ok), t, s.threads[t])
  {
    hide Ready, Remaining, Fulfilled;
  }

  lemma SectionEffect(s: State, t: Tid)
    requires RefsOk(s) && Enabled(s, Advance(t)) && !s.threads[t].Notifying?
    ensures SectionOf(s, Apply(s, Advance(t)), t, s.threads[t])
  {
    hide Locked, Leave, Ready, Remaining, Fulfilled;
    match s.threads[t]
    case Found(h, op) => LockedSection(s, t, h, op);
    case Awake(h, bits, mode, _) =>
      LeaveSection(s, t, h, bits, mode, true);
      LeaveSection(s, t, h, bits, mode, false);
    case _ =>
  }

  lemma SectionKeepsRegistry(s: State, t: Tid)
    requires RefsOk(s) && RegistryOk(s) && Enabled(s, Advance(t)) && !s.threads[t].Notifying?
    ensures RegistryOk(Apply(s, Advance(t)))
  {
    hide Apply;
    SectionEffect(s, t);
    var s', pc := Apply(s, Advance(t)), s.threads[t];
    forall h <- s'.flags
      ensures h in s'.registry <==> !s'.flags[h].deleted && !BeingDeleted(s', h)
    {
      if pc == Found(h, Delete) {
        assert s'.threads[t] == Erased(h);
      } else if pc == Erased(h) {
        assert BeingDeleted(s, h);
      } else {
        assert forall u <- s.threads :: s'.threads[u] == Erased(h) <==> s.threads[u] == Erased(h);
        assert BeingDeleted(s', h) <==> BeingDeleted(s, h);
      }
    }
  }

  lemma {:induction false} RegistryAlways(s0: State, steps: seq<Step>)
    requires Init(s0)
    ensures RefsOk(Exec(s0, steps)) && RegistryOk(Exec(s0, steps))
  {
    hide Apply, Enabled, RefsOk;
    ReachableRefs(s0, steps);
    if |steps| > 0 {
      var before := steps[..|steps| - 1];
      RegistryAlways(s0, before);
      if Enabled(Exec(s0, before), steps[|steps| - 1]) {
        RegistryKept(Exec(s0, before), steps[|steps| - 1]);
      }
    }
  }

  /** In every run a call finds its flag, and goes on with its own operation, exactly when the flag was created and no
      Delete has taken it out. */
  lemma CallFindsFlag(s0: State, steps: seq<Step>, t: Tid, h: Handle, op: Op)
    requires Init(s0) && Enabled(Exec(s0, steps), Call(t, h, op))
    ensures var s := Exec(s0, steps);
            Apply(s, Call(t, h, op)).threads[t] ==
              if h in s.flags && !s.flags[h].deleted && !BeingDeleted(s, h) then Found(h, op) else Guest(Invalid)
  {
    RegistryAlways(s0, steps);
  }

  /** Creating makes the flag, with its initial events, and no step unmakes it. */
  lemma CreatedStays(s: State, t: Tid, h: Handle, initial: iset<bv64>, step: Step)
    requires RefsOk(s) && Enabled(s, CreateFlag(t, h, initial)) && Enabled(Apply(s, CreateFlag(t, h, initial)), step)
    ensures var c := Apply(s, CreateFlag(t, h, initial));
            && h in c.registry && h in c.flags && c.flags[h] == Flag(initial, 0, false, false)
            && h in Apply(c, step).flags
  {
    RefsKept(s, CreateFlag(t, h, initial));
    RefsKept(Apply(s, CreateFlag(t, h, initial)), step);
  }

  /** No thread is ever stuck: outside every call it can make one, asleep it can time out, and otherwise it can go on.
      */
  lemma NobodyStuck(s0: State, steps: seq<Step>, t: Tid, h: Handle, op: Op)
    requires Init(s0) && t in s0.threads && Callable(op)
    ensures var s := Exec(s0, steps);
            && t in s.threads
            && match s.threads[t]
               case Guest(_) => Enabled(s, Call(t, h, op))
               case Parked(_, _, _) => Enabled(s, TimeOut(t)) && Enabled(s, WakeSpuriously(t))
               case _ => Enabled(s, Advance(t))
  {
    Reachable(s0, steps);
  }
}
