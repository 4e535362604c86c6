/** Which value a Run hands out, whatever the other threads do before it goes on. */
module FiberResults {

  import opened Options
  import opened Fibers
  import opened FiberStacks
  import opened FiberChains
  import opened FiberEntries

  /** Thread t is about to read fiber g's result. */
  predicate AboutToRead(s: State, t: Tid, g: Gid) {
    && t in s.threads && s.threads[t].phase.Resuming? && s.threads[t].phase.k.AfterRun?
    && s.threads[t].phase.k.target == g && g in s.fibers
  }

  /** The state after steps of threads other than t; steps that are not enabled are skipped. */
  ghost function OthersRun(s: State, t: Tid, steps: seq<Step>): State
    decreases |steps|
  {
    if |steps| == 0 then s
    else if steps[0].t != t && Enabled(s, steps[0]) then OthersRun(Apply(s, steps[0]), t, steps[1..])
    else OthersRun(s, t, steps[1..])
  }

  /** The argument of the last return from fiber g in those steps, or `value` if there is none. */
  ghost function LastReturned(s: State, t: Tid, g: Gid, value: int, steps: seq<Step>): int
    decreases |steps|
  {
    if |steps| == 0 then value
    else if steps[0].t != t && Enabled(s, steps[0]) then
      LastReturned(Apply(s, steps[0]), t, g, if ReturnsFrom(s, steps[0], g) then steps[0].arg else value, steps[1..])
    else LastReturned(s, t, g, value, steps[1..])
  }

  /** An enabled step of another thread leaves a pending result alone unless it returns from the fiber. */
  lemma ResultFrozen(s: State, step: Step, t: Tid, g: Gid)
    requires AboutToRead(s, t, g) && Enabled(s, step) && step.t != t
    ensures var s' := Apply(s, step);
            && AboutToRead(s', t, g) && s'.threads[t] == s.threads[t]
            && s'.fibers[g].argOnReturn == if ReturnsFrom(s, step, g) then step.arg else s.fibers[g].argOnReturn
  {
  }

  /** Run goes on with the argument of the last return from its fiber, whoever made it. */
  lemma {:induction false} LastReturnDelivered(s: State, t: Tid, g: Gid, steps: seq<Step>)
    requires AboutToRead(s, t, g)
    ensures var r := OthersRun(s, t, steps);
            && AboutToRead(r, t, g) && Enabled(r, Resume(t))
            && Apply(r, Resume(t)).threads[t].received == FromRun(LastReturned(s, t, g, s.fibers[g].argOnReturn, steps))
    decreases |steps|
  {
    hide Apply, Enabled;
    if |steps| == 0 {
      ReadsResult(s, t, g);
    } else if steps[0].t != t && Enabled(s, steps[0]) {
      ResultFrozen(s, steps[0], t, g);
      LastReturnDelivered(Apply(s, steps[0]), t, g, steps[1..]);
    } else {
      LastReturnDelivered(s, t, g, steps[1..]);
    }
  }

  lemma ReadsResult(s: State, t: Tid, g: Gid)
    requires AboutToRead(s, t, g)
    ensures Enabled(s, Resume(t)) && Apply(s, Resume(t)).threads[t].received == FromRun(s.fibers[g].argOnReturn)
  {
  }

  // ---- The value of a return ----

  /** The fiber at the end of a chain, entered by a Run that waits below it, returns. */
  predicate RunBelow(s: State, chain: seq<Context>) {
    |chain| > 1 && chain[|chain| - 2] in s.suspended && s.suspended[chain[|chain| - 2]].AfterRun?
  }

  lemma ReturnMakesPending(s: State, t: Tid, chain: seq<Context>, value: int)
    requires IdentityOk(s) && GuestRuns(s, t) && Linked(s, t, chain) && RunBelow(s, chain) &&
             chain[|chain| - 1].FiberContext?
    ensures Enabled(s, ReturnToThread(t, value))
    ensures var left, g := Apply(s, ReturnToThread(t, value)), chain[|chain| - 1].g;
            AboutToRead(left, t, g) && left.fibers[g].argOnReturn == value
  {
    hide IdentityOk, WaitsOn;
    var g, back := chain[|chain| - 1].g, chain[|chain| - 2];
    LinkLeaves(s, t, chain);
    LeftIsReturn(s, t, g, value, back);
    BackIsLive(s, back, g);
  }

  /** The value given to ReturnToThread is what the Run below hands out if and only if the last return from the same
      fiber by another thread before that, if there is one, has the same value: for any steps of the other threads. */
  lemma ReturnValueDelivered(s: State, t: Tid, chain: seq<Context>, value: int, steps: seq<Step>)
    requires IdentityOk(s) && GuestRuns(s, t) && Linked(s, t, chain) && RunBelow(s, chain) &&
             chain[|chain| - 1].FiberContext?
    ensures Enabled(s, ReturnToThread(t, value))
    ensures var left, g := Apply(s, ReturnToThread(t, value)), chain[|chain| - 1].g;
            var r := OthersRun(left, t, steps);
            && Enabled(r, Resume(t))
            && (Apply(r, Resume(t)).threads[t].received == FromRun(value) <==>
                LastReturned(left, t, g, value, steps) == value)
  {
    hide IdentityOk, Linked, OthersRun, LastReturned, Apply, Enabled;
    var g := chain[|chain| - 1].g;
    ReturnMakesPending(s, t, chain, value);
    LastReturnDelivered(Apply(s, ReturnToThread(t, value)), t, g, steps);
  }

  // ---- A condition for the other threads ----

  /** The step enters fiber g. */
  predicate Enters(s: State, step: Step, g: Gid) {
    (step.Run? || step.Switch?) && step.handle in s.registry && s.registry[step.handle] == g
  }

  /** No other thread enters fiber g. */
  ghost predicate NotEntered(s: State, t: Tid, g: Gid, steps: seq<Step>)
    decreases |steps|
  {
    if |steps| == 0 then true
    else if steps[0].t != t && Enabled(s, steps[0]) then
      !Enters(s, steps[0], g) && NotEntered(Apply(s, steps[0]), t, g, steps[1..])
    else NotEntered(s, t, g, steps[1..])
  }

  /** The set has the running contexts, all threads, and the ways back of its fibers. */
  ghost predicate Closed(s: State, live: iset<Context>) {
    && (forall t <- s.threads :: s.threads[t].running in live)
    && (forall c: Context | c.ThreadContext? :: c in live)
    && (forall f <- s.fibers | FiberContext(f) in live && s.fibers[f].resumeTo.Some? ::
      s.fibers[f].resumeTo.value in live)
  }

  /** Only entering makes another fiber run. */
  lemma ClosedKept(s: State, live: iset<Context>, step: Step, g: Gid) returns (after: iset<Context>)
    requires IdentityOk(s) && Closed(s, live) && FiberContext(g) !in live && Enabled(s, step) && !Enters(s, step, g)
    requires g in s.fibers
    ensures Closed(Apply(s, step), after) && FiberContext(g) !in after
    ensures !ReturnsFrom(s, step, g)
  {
    GuestIdentity(s, step.t);
    after := live;
    if (step.Run? || step.Switch?) && step.handle in s.registry {
      after := live + iset{FiberContext(s.registry[step.handle])};
    }
    RunsInClosed(s, live, step, after);
  }

  lemma RunsInClosed(s: State, live: iset<Context>, step: Step, after: iset<Context>)
    requires IdentityOk(s) && Closed(s, live) && Enabled(s, step)
    requires after == if (step.Run? || step.Switch?) && step.handle in s.registry
                      then live + iset{FiberContext(s.registry[step.handle])} else live
    ensures Closed(Apply(s, step), after)
  {
    GuestIdentity(s, step.t);
  }

  lemma {:induction false} NothingReturned(s: State, t: Tid, g: Gid, value: int, steps: seq<Step>, live: iset<Context>)
    requires AboutToRead(s, t, g) && IdentityOk(s) && Closed(s, live) && FiberContext(g) !in live &&
             NotEntered(s, t, g, steps)
    ensures LastReturned(s, t, g, value, steps) == value
    decreases |steps|
  {
    hide IdentityOk, Closed, Apply, Enabled, ReturnsFrom;
    if |steps| > 0 {
      if steps[0].t != t && Enabled(s, steps[0]) {
        var after := ClosedKept(s, live, steps[0], g);
        IdentityKept(s, steps[0]);
        ResultFrozen(s, steps[0], t, g);
        NothingReturned(Apply(s, steps[0]), t, g, value, steps[1..], after);
      } else {
        NothingReturned(s, t, g, value, steps[1..], live);
      }
    }
  }

  lemma StacksClosed(s: State, stacks: Stacks) returns (live: iset<Context>)
    requires Stacked(s, stacks)
    ensures Closed(s, live) && forall g: Gid :: FiberContext(g) in live <==> OnStack(stacks, FiberContext(g))
  {
    live := iset c: Context | c.ThreadContext? || OnStack(stacks, c);
    forall t <- s.threads
      ensures s.threads[t].running in live
    {
      RunningOnStack(s, stacks, t);
    }
    forall f <- s.fibers | FiberContext(f) in live && s.fibers[f].resumeTo.Some?
      ensures s.fibers[f].resumeTo.value in live
    {
      var u, i :| Occupies(stacks, u, i, FiberContext(f));
      BelowOnStack(s, stacks, u, i, f);
    }
  }

  lemma BelowOnStack(s: State, stacks: Stacks, u: Tid, i: int, f: Gid)
    requires Stacked(s, stacks) && Occupies(stacks, u, i, FiberContext(f))
    ensures f in s.fibers && s.fibers[f].resumeTo.Some? && OnStack(stacks, s.fibers[f].resumeTo.value)
  {
    assert Chain(s, u, stacks[u]);
    assert WaitsOn(s, stacks[u][i - 1], f);
    assert Occupies(stacks, u, i - 1, stacks[u][i - 1]);
  }

  /** From a state reached in discipline the value arrives whatever the others do, as long as none of them enters the
      fiber before it has been read. */
  lemma DeliveredUnlessEntered(s: State, stacks: Stacks, t: Tid, value: int, steps: seq<Step>)
    requires Stacked(s, stacks) && GuestRuns(s, t) && RunBelow(s, stacks[t])
    requires var g := s.threads[t].current;
             Enabled(s, ReturnToThread(t, value)) && g.Some? ==>
               NotEntered(Apply(s, ReturnToThread(t, value)), t, g.value, steps)
    ensures Enabled(s, ReturnToThread(t, value))
    ensures var r := OthersRun(Apply(s, ReturnToThread(t, value)), t, steps);
            Enabled(r, Resume(t)) && Apply(r, Resume(t)).threads[t].received == FromRun(value)
  {
    hide IdentityOk, Chain, Distinct, IdleOk, OthersRun, LastReturned, NotEntered, Closed, Apply, Enabled, Linked;
    var step := ReturnToThread(t, value);
    StackLinked(s, stacks, t);
    var g, back := TopOfStack(s, stacks, t);
    RunningOnStack(s, stacks, t);
    ReturnMakesPending(s, t, stacks[t], value);
    ReturnValueDelivered(s, t, stacks[t], value, steps);
    var left, popped := Apply(s, step), stacks[t := stacks[t][..|stacks[t]| - 1]];
    LeavesStacked(s, stacks, t, value);
    Popped(stacks, t);
    var live := StacksClosed(left, popped);
    NothingReturned(left, t, g, value, steps, live);
  }

  lemma LeavesStacked(s: State, stacks: Stacks, t: Tid, value: int)
    requires Stacked(s, stacks) && GuestRuns(s, t) && Enabled(s, ReturnToThread(t, value)) && |stacks[t]| > 1
    ensures Stacked(Apply(s, ReturnToThread(t, value)), stacks[t := stacks[t][..|stacks[t]| - 1]])
  {
    hide Stacked;
    StacksKept(s, stacks, ReturnToThread(t, value));
  }
}
