/** The discipline under which fibers nest, and what it guarantees. */
module FiberStacks {
  import opened Options
  import opened Fibers

  /** For every thread, the contexts that wait for each other: the thread's own context at
      the bottom, the running context on top. */
  type Stacks = map<Tid, seq<Context>>

  /** c is suspended in a Run or Switch that entered fiber g: it is g's way back, and g still
      holds the argument it was sent. */
  predicate WaitsOn(s: State, c: Context, g: Gid) {
    && c in s.suspended && Targets(s.suspended[c], g)
    && g in s.fibers && s.fibers[g].created && s.fibers[g].resumeTo == Some(c)
    && s.fibers[g].argOnRun == s.suspended[c].sent
  }

  ghost predicate Chain(s: State, t: Tid, stack: seq<Context>) {
    && t in s.threads
    && |stack| > 0 && stack[0] == ThreadContext(t) && stack[|stack| - 1] == s.threads[t].running
    && (forall i | 0 < i < |stack| :: stack[i].FiberContext? && WaitsOn(s, stack[i - 1], stack[i].g))
  }

  ghost predicate OnStack(stacks: Stacks, c: Context) {
    exists t, i :: Occupies(stacks, t, i, c)
  }

  predicate Occupies(stacks: Stacks, t: Tid, i: int, c: Context) {
    t in stacks && 0 <= i < |stacks[t]| && stacks[t][i] == c
  }

  ghost predicate Distinct(stacks: Stacks) {
    forall t, i, u, j, c :: Occupies(stacks, t, i, c) && Occupies(stacks, u, j, c) ==> t == u && i == j
  }

  /** A thread that is about to read the result of its Run or Switch. */
  predicate Reads(s: State, t: Tid, g: Gid) {
    t in s.threads && WaitsFor(s.threads[t], g)
  }

  /** The fiber a thread is about to read from is on no stack, and still holds what it was sent. */
  ghost predicate ReadOk(s: State, stacks: Stacks, t: Tid) {
    t in s.threads && s.threads[t].phase.Resuming? ==>
      var k := s.threads[t].phase.k;
      (k.AfterRun? || k.AfterSwitch?) ==>
        && !OnStack(stacks, FiberContext(k.target))
        && k.target in s.fibers && s.fibers[k.target].argOnRun == k.sent
  }

  /** Fibers on no stack are suspended at their start, at a ReturnToThread, or finished. */
  ghost predicate IdleOk(s: State, stacks: Stacks) {
    forall c <- s.suspended :: (s.suspended[c].AfterRun? || s.suspended[c].AfterSwitch?) ==> OnStack(stacks, c)
  }

  ghost predicate Stacked(s: State, stacks: Stacks) {
    && IdentityOk(s)
    && stacks.Keys == s.threads.Keys
    && (forall t <- stacks :: Chain(s, t, stacks[t]))
    && Distinct(stacks)
    && IdleOk(s, stacks)
    && (forall t <- s.threads :: ReadOk(s, stacks, t))
    && (forall t <- s.threads :: s.threads[t].running !in s.suspended)
  }

  /** Run and Switch may enter a fiber that is on no stack and whose last result has been read. */
  ghost predicate Enterable(s: State, stacks: Stacks, g: Gid) {
    !OnStack(stacks, FiberContext(g)) && forall t :: !Reads(s, t, g)
  }

  ghost predicate Disciplined(s: State, stacks: Stacks, step: Step) {
    && Enabled(s, step)
    && (step.Run? && step.handle in s.registry ==> Enterable(s, stacks, s.registry[step.handle]))
    && (step.Switch? && step.handle in s.registry ==> Enterable(s, stacks, s.registry[step.handle]))
  }

  function NextStacks(s: State, stacks: Stacks, step: Step): Stacks
    requires step.t in stacks
  {
    var stack := stacks[step.t];
    match step
    case Run(t, handle, _) =>
      if handle in s.registry then stacks[t := stack + [FiberContext(s.registry[handle])]] else stacks
    case Switch(t, handle, _) =>
      if handle in s.registry then stacks[t := stack + [FiberContext(s.registry[handle])]] else stacks
    case ReturnToThread(t, _) => if |stack| > 1 then stacks[t := stack[..|stack| - 1]] else stacks
    case EntryReturns(t) => if |stack| > 1 then stacks[t := stack[..|stack| - 1]] else stacks
    case _ => stacks
  }

  // ---- Entering a fiber pushes it ----

  lemma Pushed(stacks: Stacks, t: Tid, c: Context)
    requires t in stacks && Distinct(stacks) && !OnStack(stacks, c)
    ensures var next := stacks[t := stacks[t] + [c]];
            && Distinct(next)
            && forall d :: OnStack(next, d) <==> d == c || OnStack(stacks, d)
  {
    var next := stacks[t := stacks[t] + [c]];
    forall u, j, d
      ensures Occupies(next, u, j, d) <==> Occupies(stacks, u, j, d) || (u == t && j == |stacks[t]| && d == c)
    {
    }
    forall d ensures OnStack(next, d) <==> d == c || OnStack(stacks, d) {
      if d == c {
        assert Occupies(next, t, |stacks[t]|, c);
      }
      if OnStack(stacks, d) {
        var u, j :| Occupies(stacks, u, j, d);
        assert Occupies(next, u, j, d);
      }
      if OnStack(next, d) {
        var u, j :| Occupies(next, u, j, d);
      }
    }
  }

  lemma Popped(stacks: Stacks, t: Tid)
    requires t in stacks && |stacks[t]| > 1 && Distinct(stacks)
    ensures var top := stacks[t][|stacks[t]| - 1];
            var next := stacks[t := stacks[t][..|stacks[t]| - 1]];
            && Distinct(next)
            && forall d :: OnStack(next, d) <==> d != top && OnStack(stacks, d)
  {
    var top := stacks[t][|stacks[t]| - 1];
    var next := stacks[t := stacks[t][..|stacks[t]| - 1]];
    assert Occupies(stacks, t, |stacks[t]| - 1, top);
    forall u, j, d ensures Occupies(next, u, j, d) <==> Occupies(stacks, u, j, d) && d != top {
      if Occupies(stacks, u, j, d) && d == top {
        assert u == t && j == |stacks[t]| - 1;
      }
    }
    forall d ensures OnStack(next, d) <==> d != top && OnStack(stacks, d) {
      if d != top && OnStack(stacks, d) {
        var u, j :| Occupies(stacks, u, j, d);
        assert Occupies(next, u, j, d);
      }
      if OnStack(next, d) {
        var u, j :| Occupies(next, u, j, d);
        assert Occupies(stacks, u, j, d);
      }
    }
  }

  predicate CanEnter(s: State, t: Tid, g: Gid, arg: int, k: Continuation) {
    && GuestRuns(s, t) && g in s.fibers && CanSwitchTo(Prepared(s, t, g, arg), FiberContext(g))
    && Targets(k, g) && k.sent == arg && k.previous == s.threads[t].current
  }

  /** The state that a Run or Switch leaves when it goes to fiber g, suspended with k. */
  function Entered(s: State, t: Tid, g: Gid, arg: int, k: Continuation): State
    requires CanEnter(s, t, g, arg, k)
  {
    SwitchTo(Prepared(s, t, g, arg), t, s.threads[t].current, k, FiberContext(g))
  }

  /** Contexts that wait for each other are left alone when another fiber is entered. */
  lemma EnterKeepsWaits(s: State, t: Tid, g: Gid, arg: int, k: Continuation, c: Context, f: Gid)
    requires CanEnter(s, t, g, arg, k) && WaitsOn(s, c, f) && f != g && c != FiberContext(g)
    requires s.threads[t].running !in s.suspended
    ensures WaitsOn(Entered(s, t, g, arg, k), c, f)
  {
  }

  lemma EnterStartsWait(s: State, t: Tid, g: Gid, arg: int, k: Continuation)
    requires CanEnter(s, t, g, arg, k) && s.threads[t].running != FiberContext(g)
    ensures var s' := Entered(s, t, g, arg, k);
            && WaitsOn(s', s.threads[t].running, g)
            && s'.threads == s.threads[t := Thread(FiberContext(g), s.threads[t].current,
                                                   Resuming(Prepared(s, t, g, arg).suspended[FiberContext(g)]),
                                                   s.threads[t].received)]
            && s'.fibers.Keys == s.fibers.Keys && (forall f <- s.fibers | f != g :: s'.fibers[f] == s.fibers[f])
            && FiberContext(g) !in s'.suspended
            && (forall c <- s'.suspended | c != s.threads[t].running ::
                  c in s.suspended && s'.suspended[c] == s.suspended[c])
  {
  }

  lemma EnterKeepsIdentity(s: State, t: Tid, g: Gid, arg: int, k: Continuation)
    requires CanEnter(s, t, g, arg, k) && IdentityOk(s)
    ensures IdentityOk(Entered(s, t, g, arg, k))
  {
    PreparedKeepsIdentity(s, t, g, arg);
    GuestIdentity(s, t);
    assert ThreadOk(s, s.threads[t]);
    SwitchKeepsIdentity(Prepared(s, t, g, arg), t, k, FiberContext(g), s.threads[t].current);
  }

  lemma NotOnStack(stacks: Stacks, u: Tid, c: Context)
    requires u in stacks && !OnStack(stacks, c)
    ensures c !in stacks[u]
  {
    if c in stacks[u] {
      MemberOnStack(stacks, u, c);
    }
  }

  lemma MemberOnStack(stacks: Stacks, u: Tid, c: Context)
    requires u in stacks && c in stacks[u]
    ensures OnStack(stacks, c)
  {
    var i :| 0 <= i < |stacks[u]| && stacks[u][i] == c;
    assert Occupies(stacks, u, i, c);
  }

  lemma EnterKeepsChain(s: State, stacks: Stacks, t: Tid, g: Gid, arg: int, k: Continuation, u: Tid)
    requires Stacked(s, stacks) && CanEnter(s, t, g, arg, k) && !OnStack(stacks, FiberContext(g)) && u in stacks
    ensures Chain(Entered(s, t, g, arg, k), u, if u == t then stacks[t] + [FiberContext(g)] else stacks[u])
  {
    hide Entered, WaitsOn, IdentityOk, Prepared, CanSwitchTo, SwitchTo, Distinct, ReadOk, IdleOk, OnStack;
    var s' := Entered(s, t, g, arg, k);
    var stack := stacks[u];
    assert Chain(s, u, stack);
    NotOnStack(stacks, u, FiberContext(g));
    RunningOnStack(s, stacks, t);
    EnterStartsWait(s, t, g, arg, k);
    forall i | 0 < i < |stack| ensures WaitsOn(s', stack[i - 1], stack[i].g) {
      EnterKeepsWaits(s, t, g, arg, k, stack[i - 1], stack[i].g);
    }
  }

  lemma EnterKeepsStacks(s: State, stacks: Stacks, t: Tid, g: Gid, arg: int, k: Continuation)
    requires Stacked(s, stacks) && CanEnter(s, t, g, arg, k) && Enterable(s, stacks, g)
    ensures Stacked(Entered(s, t, g, arg, k), stacks[t := stacks[t] + [FiberContext(g)]])
  {
    hide Entered, WaitsOn, IdentityOk, Prepared, CanSwitchTo, Chain, Distinct, OnStack;
    var s', next := Entered(s, t, g, arg, k), stacks[t := stacks[t] + [FiberContext(g)]];
    EnterKeepsIdentity(s, t, g, arg, k);
    RunningOnStack(s, stacks, t);
    EnterStartsWait(s, t, g, arg, k);
    Pushed(stacks, t, FiberContext(g));
    forall u <- next ensures Chain(s', u, next[u]) {
      EnterKeepsChain(s, stacks, t, g, arg, k, u);
    }
    forall u <- s'.threads ensures ReadOk(s', next, u) {
      assert !Reads(s, u, g) && ReadOk(s, stacks, u);
      if u == t {
        EnteredFresh(s, stacks, t, g, arg, k);
      }
    }
    forall u <- s'.threads ensures s'.threads[u].running !in s'.suspended {
      if u != t {
        RunningDiffers(s, stacks, t, u);
      }
    }
    assert IdleOk(s', next);
  }

  lemma RunningOnStack(s: State, stacks: Stacks, t: Tid)
    requires Stacked(s, stacks) && t in s.threads
    ensures |stacks[t]| > 0 && stacks[t][|stacks[t]| - 1] == s.threads[t].running
    ensures OnStack(stacks, s.threads[t].running)
  {
    assert Chain(s, t, stacks[t]);
    assert Occupies(stacks, t, |stacks[t]| - 1, s.threads[t].running);
  }

  lemma RunningDiffers(s: State, stacks: Stacks, t: Tid, u: Tid)
    requires Stacked(s, stacks) && t in s.threads && u in s.threads && t != u
    ensures s.threads[t].running != s.threads[u].running
  {
    assert Chain(s, t, stacks[t]) && Chain(s, u, stacks[u]);
    assert Occupies(stacks, t, |stacks[t]| - 1, s.threads[t].running);
    assert Occupies(stacks, u, |stacks[u]| - 1, s.threads[u].running);
  }

  /** A fiber on no stack is not in the middle of a Run or Switch. */
  lemma EnteredFresh(s: State, stacks: Stacks, t: Tid, g: Gid, arg: int, k: Continuation)
    requires Stacked(s, stacks) && CanEnter(s, t, g, arg, k) && !OnStack(stacks, FiberContext(g))
    ensures var p := Prepared(s, t, g, arg).suspended[FiberContext(g)]; p.Start? || p.AfterReturn?
  {
  }

  // ---- Leaving a fiber pops it ----

  /** The fiber on top of a stack of two or more, and the context it goes back to. */
  lemma TopOfStack(s: State, stacks: Stacks, t: Tid) returns (g: Gid, back: Context)
    requires Stacked(s, stacks) && GuestRuns(s, t) && |stacks[t]| > 1
    ensures s.threads[t].running == FiberContext(g) && s.threads[t].current == Some(g) && g in s.fibers
    ensures back == stacks[t][|stacks[t]| - 2] && ResumeTarget(s, t, g) == back && WaitsOn(s, back, g)
    ensures CanSwitchTo(s, back) && back != FiberContext(g)
  {
    assert Chain(s, t, stacks[t]);
    var n := |stacks[t]| - 1;
    g, back := stacks[t][n].g, stacks[t][n - 1];
    GuestIdentity(s, t);
    assert Occupies(stacks, t, n - 1, back) && Occupies(stacks, t, n, FiberContext(g));
  }

  /** With only its own context on the stack, a thread is not in a fiber. */
  lemma BottomOfStack(s: State, stacks: Stacks, t: Tid)
    requires Stacked(s, stacks) && GuestRuns(s, t) && |stacks[t]| == 1
    ensures s.threads[t].running == ThreadContext(t) && s.threads[t].current == None
  {
    assert Chain(s, t, stacks[t]);
    GuestIdentity(s, t);
  }

  /** The state that a ReturnToThread, or the end of an entry function, leaves. */
  function Left(s: State, t: Tid, g: Gid, returned: int, k: Continuation, back: Context): State
    requires GuestRuns(s, t) && g in s.fibers && CanSwitchTo(s, back)
  {
    SwitchTo(s.(fibers := s.fibers[g := s.fibers[g].(argOnReturn := returned)]), t, None, k, back)
  }

  predicate Leaving(s: State, stacks: Stacks, t: Tid, g: Gid, k: Continuation, back: Context) {
    && GuestRuns(s, t) && t in stacks && |stacks[t]| > 1 && s.threads[t].running == FiberContext(g) && g in s.fibers
    && back == stacks[t][|stacks[t]| - 2] && WaitsOn(s, back, g) && CanSwitchTo(s, back) && back != FiberContext(g)
    && (k == AfterReturn(g) || k == Finished)
  }

  lemma LeaveEffect(s: State, stacks: Stacks, t: Tid, g: Gid, returned: int, k: Continuation, back: Context)
    requires Leaving(s, stacks, t, g, k, back)
    ensures var s' := Left(s, t, g, returned, k, back);
            && s'.threads == s.threads[t := Thread(back, None, Resuming(s.suspended[back]), s.threads[t].received)]
            && s'.fibers == s.fibers[g := s.fibers[g].(argOnReturn := returned)]
            && back !in s'.suspended && FiberContext(g) in s'.suspended && s'.suspended[FiberContext(g)] == k
            && (forall c <- s'.suspended | c != FiberContext(g) ::
                  c in s.suspended && s'.suspended[c] == s.suspended[c])
            && (forall c <- s.suspended | c != back && c != FiberContext(g) :: c in s'.suspended)
  {
  }

  lemma LeaveKeepsWaits(s: State, stacks: Stacks, t: Tid, g: Gid, returned: int, k: Continuation, back: Context,
                        c: Context, f: Gid)
    requires Leaving(s, stacks, t, g, k, back) && WaitsOn(s, c, f) && c != back && c != FiberContext(g)
    ensures WaitsOn(Left(s, t, g, returned, k, back), c, f)
  {
  }

  lemma LeaveKeepsIdentity(s: State, stacks: Stacks, t: Tid, g: Gid, returned: int, k: Continuation, back: Context)
    requires Leaving(s, stacks, t, g, k, back) && IdentityOk(s)
    ensures IdentityOk(Left(s, t, g, returned, k, back))
  {
    assert ThreadOk(s, s.threads[t]);
    var told := s.(fibers := s.fibers[g := s.fibers[g].(argOnReturn := returned)]);
    SwitchKeepsIdentity(told, t, k, back, None);
  }

  lemma LeaveKeepsChain(s: State, stacks: Stacks, t: Tid, g: Gid, returned: int, k: Continuation, back: Context, u: Tid)
    requires Stacked(s, stacks) && Leaving(s, stacks, t, g, k, back) && u in stacks
    ensures Chain(Left(s, t, g, returned, k, back), u, if u == t then stacks[t][..|stacks[t]| - 1] else stacks[u])
  {
    hide Left, WaitsOn, IdentityOk, CanSwitchTo;
    var s' := Left(s, t, g, returned, k, back);
    LeaveEffect(s, stacks, t, g, returned, k, back);
    assert Chain(s, u, stacks[u]);
    var n := |stacks[t]| - 1;
    assert Occupies(stacks, t, n - 1, back) && Occupies(stacks, t, n, FiberContext(g)) by {
      assert Chain(s, t, stacks[t]);
    }
    var stack := if u == t then stacks[t][..n] else stacks[u];
    forall i | 0 < i < |stack| ensures WaitsOn(s', stack[i - 1], stack[i].g) {
      assert Occupies(stacks, u, i - 1, stack[i - 1]);
      LeaveKeepsWaits(s, stacks, t, g, returned, k, back, stack[i - 1], stack[i].g);
    }
  }

  lemma LeaveKeepsStacks(s: State, stacks: Stacks, t: Tid, g: Gid, returned: int, k: Continuation, back: Context)
    requires Stacked(s, stacks) && Leaving(s, stacks, t, g, k, back)
    ensures Stacked(Left(s, t, g, returned, k, back), stacks[t := stacks[t][..|stacks[t]| - 1]])
  {
    hide Left, IdentityOk, CanSwitchTo, Chain, Distinct, OnStack;
    var s', next := Left(s, t, g, returned, k, back), stacks[t := stacks[t][..|stacks[t]| - 1]];
    LeaveKeepsIdentity(s, stacks, t, g, returned, k, back);
    LeaveEffect(s, stacks, t, g, returned, k, back);
    Popped(stacks, t);
    RunningOnStack(s, stacks, t);
    forall u <- next ensures Chain(s', u, next[u]) {
      LeaveKeepsChain(s, stacks, t, g, returned, k, back, u);
    }
    forall u <- s'.threads ensures ReadOk(s', next, u) {
      assert ReadOk(s, stacks, u);
    }
    forall u <- s'.threads ensures s'.threads[u].running !in s'.suspended {
      if u != t {
        RunningDiffers(s, stacks, t, u);
      }
    }
    assert IdleOk(s', next);
  }

  // ---- Every disciplined step keeps the stacks ----

  lemma ResumeKeepsStacks(s: State, stacks: Stacks, t: Tid)
    requires Stacked(s, stacks) && Enabled(s, Resume(t))
    ensures Stacked(Apply(s, Resume(t)), stacks)
  {
    hide IdentityOk, Distinct, OnStack, WaitsOn;
    var s' := Apply(s, Resume(t));
    ResumeKeepsIdentity(s, t);
    assert s'.threads[t].running == s.threads[t].running && s'.threads[t].phase.Guest? by { ResumedRuns(s, t); }
    forall u <- stacks ensures Chain(s', u, stacks[u]) {
      assert Chain(s, u, stacks[u]);
      forall i | 0 < i < |stacks[u]| ensures WaitsOn(s', stacks[u][i - 1], stacks[u][i].g) {
        WaitsInUse(s, stacks[u][i - 1], stacks[u][i].g);
        SameWaits(s, s', stacks[u][i - 1], stacks[u][i].g);
      }
    }
    forall u <- s'.threads ensures ReadOk(s', stacks, u) {
      assert ReadOk(s, stacks, u);
    }
  }

  lemma ResumedRuns(s: State, t: Tid)
    requires IdentityOk(s) && Enabled(s, Resume(t))
    ensures var th := Apply(s, Resume(t)).threads[t]; th.running == s.threads[t].running && th.phase.Guest?
  {
    assert ThreadOk(s, s.threads[t]);
  }

  lemma SameWaits(s: State, s': State, c: Context, g: Gid)
    requires WaitsOn(s, c, g)
    requires c in s'.suspended && s'.suspended[c] == s.suspended[c] && g in s'.fibers && s'.fibers[g] == s.fibers[g]
    ensures WaitsOn(s', c, g)
  {
  }

  lemma InitializeKeepsStacks(s: State, stacks: Stacks, t: Tid, handle: Handle, g: Gid, arg: int)
    requires Stacked(s, stacks) && Enabled(s, Initialize(t, handle, g, arg))
    ensures Stacked(Apply(s, Initialize(t, handle, g, arg)), stacks)
  {
    hide Distinct, OnStack;
    var s' := Apply(s, Initialize(t, handle, g, arg));
    IdentityKept(s, Initialize(t, handle, g, arg));
    forall u <- stacks ensures Chain(s', u, stacks[u]) {
      assert Chain(s, u, stacks[u]);
    }
    forall u <- s'.threads ensures ReadOk(s', stacks, u) {
      assert ReadOk(s, stacks, u);
    }
  }

  lemma FinalizeKeepsStacks(s: State, stacks: Stacks, t: Tid, handle: Handle)
    requires Stacked(s, stacks) && Enabled(s, Finalize(t, handle)) && handle in s.registry
    ensures Stacked(Apply(s, Finalize(t, handle)), stacks)
  {
    hide IdentityOk, Distinct, OnStack, WaitsOn, Repairs, ThreadOk;
    var s', g := Apply(s, Finalize(t, handle)), s.registry[handle];
    FinalizeKeepsIdentity(s, t, handle);
    forall u <- stacks ensures Chain(s', u, stacks[u]) {
      assert Chain(s, u, stacks[u]);
      forall i | 0 < i < |stacks[u]| ensures WaitsOn(s', stacks[u][i - 1], stacks[u][i].g) {
        WaitsInUse(s, stacks[u][i - 1], stacks[u][i].g);
        if i > 1 {
          assert WaitsOn(s, stacks[u][i - 2], stacks[u][i - 1].g);
          WaitsInUse(s, stacks[u][i - 2], stacks[u][i - 1].g);
        }
        assert stacks[u][i - 1] != FiberContext(g) && stacks[u][i].g != g;
        SameWaits(s, s', stacks[u][i - 1], stacks[u][i].g);
      }
    }
    forall u <- s'.threads ensures ReadOk(s', stacks, u) {
      assert ReadOk(s, stacks, u) && !WaitsFor(s.threads[u], g);
    }
    assert IdleOk(s', stacks);
  }

  lemma WaitsInUse(s: State, c: Context, g: Gid)
    requires WaitsOn(s, c, g)
    ensures InUse(s, g) && c in s.suspended && g in s.fibers
  {
  }

  /** Every disciplined step of any thread keeps the stacks; Run and Switch push the fiber
      they enter, and ReturnToThread pops exactly one context. */
  lemma StacksKept(s: State, stacks: Stacks, step: Step)
    requires Stacked(s, stacks) && Disciplined(s, stacks, step)
    ensures Stacked(Apply(s, step), NextStacks(s, stacks, step))
  {
    hide Stacked, IdentityOk, SwitchTo, Prepared, CanSwitchTo, OnStack;
    var t := step.t;
    match step
    case Initialize(_, handle, g, arg) => InitializeKeepsStacks(s, stacks, t, handle, g, arg);
    case Run(_, handle, arg) =>
      if handle in s.registry {
        var g := s.registry[handle];
        EnterKeepsStacks(s, stacks, t, g, arg, AfterRun(s.threads[t].current, g, arg));
      }
    case Switch(_, handle, arg) =>
      if handle in s.registry {
        var g := s.registry[handle];
        EnterKeepsStacks(s, stacks, t, g, arg, AfterSwitch(s.threads[t].current, g, arg));
      }
    case ReturnToThread(_, arg) => LeavingStep(s, stacks, step);
    case EntryReturns(_) => LeavingStep(s, stacks, step);
    case Finalize(_, handle) =>
      if handle in s.registry {
        FinalizeKeepsStacks(s, stacks, t, handle);
      }
    case Resume(_) => ResumeKeepsStacks(s, stacks, t);
  }

  lemma LeavingStep(s: State, stacks: Stacks, step: Step)
    requires Stacked(s, stacks) && Enabled(s, step) && (step.ReturnToThread? || step.EntryReturns?)
    ensures Stacked(Apply(s, step), NextStacks(s, stacks, step))
  {
    var t := step.t;
    RunningOnStack(s, stacks, t);
    if |stacks[t]| > 1 {
      var g, back := TopOfStack(s, stacks, t);
      var k := if step.ReturnToThread? then AfterReturn(g) else Finished;
      var returned := if step.ReturnToThread? then step.arg else s.fibers[g].argOnReturn;
      LeaveKeepsStacks(s, stacks, t, g, returned, k, back);
      if step.EntryReturns? {
        assert s.fibers[g := s.fibers[g].(argOnReturn := returned)] == s.fibers;
      }
    } else {
      BottomOfStack(s, stacks, t);
    }
  }

  // ---- The thread is regained after exactly as many returns as fibers were entered ----

  /** A ReturnToThread and the resumption of the context it goes to. */
  function ReturnOnce(s: State, t: Tid, arg: int): State {
    if !Enabled(s, ReturnToThread(t, arg)) then s
    else
      var left := Apply(s, ReturnToThread(t, arg));
      if Enabled(left, Resume(t)) then Apply(left, Resume(t)) else left
  }

  function Returns(s: State, t: Tid, args: seq<int>): State
    decreases |args|
  {
    if |args| == 0 then s else Returns(ReturnOnce(s, t, args[0]), t, args[1..])
  }

  lemma ReturnPops(s: State, stacks: Stacks, t: Tid, arg: int)
    requires Stacked(s, stacks) && GuestRuns(s, t)
    ensures var n := |stacks[t]|;
            && n > 0 && GuestRuns(ReturnOnce(s, t, arg), t)
            && Stacked(ReturnOnce(s, t, arg), if n > 1 then stacks[t := stacks[t][..n - 1]] else stacks)
  {
    hide IdentityOk, SwitchTo, Distinct, OnStack, IdleOk, ReadOk, Chain;
    RunningOnStack(s, stacks, t);
    var step := ReturnToThread(t, arg);
    if |stacks[t]| > 1 {
      var g, back := TopOfStack(s, stacks, t);
      assert Enabled(s, step);
      StacksKept(s, stacks, step);
      var left, popped := Apply(s, step), NextStacks(s, stacks, step);
      LeaveEffect(s, stacks, t, g, arg, AfterReturn(g), back);
      assert left == Left(s, t, g, arg, AfterReturn(g), back);
      ReadsWhatExists(left, popped, t);
      StacksKept(left, popped, Resume(t));
      ResumedRuns(left, t);
    } else {
      BottomOfStack(s, stacks, t);
    }
  }

  lemma ReadsWhatExists(s: State, stacks: Stacks, t: Tid)
    requires Stacked(s, stacks) && t in s.threads && s.threads[t].phase.Resuming?
    ensures Enabled(s, Resume(t))
  {
    assert ReadOk(s, stacks, t);
  }

  /** After any number of returns the running context is that many places further down the
      stack, and at the thread's own context from exactly the depth of the stack on. */
  lemma {:induction false} RegainsThread(s: State, stacks: Stacks, t: Tid, args: seq<int>)
    requires Stacked(s, stacks) && GuestRuns(s, t)
    ensures |stacks[t]| > 0 && GuestRuns(Returns(s, t, args), t)
    ensures var depth := |stacks[t]| - 1;
            Returns(s, t, args).threads[t].running
              == if |args| >= depth then ThreadContext(t) else stacks[t][depth - |args|]
    decreases |args|
  {
    hide ReturnOnce, IdentityOk, Distinct, OnStack, IdleOk, ReadOk;
    RunningOnStack(s, stacks, t);
    assert Chain(s, t, stacks[t]);
    if |args| > 0 {
      ReturnPops(s, stacks, t, args[0]);
      var popped := if |stacks[t]| > 1 then stacks[t := stacks[t][..|stacks[t]| - 1]] else stacks;
      RegainsThread(ReturnOnce(s, t, args[0]), popped, t, args[1..]);
    }
  }

  // ---- Arguments ----

  /** A fiber that starts or goes on is handed the argument of the Run or Switch that
      entered it, which is still waiting below it on the stack. */
  lemma EntryArgumentDelivered(s: State, stacks: Stacks, t: Tid)
    requires Stacked(s, stacks) && Enabled(s, Resume(t)) && |stacks[t]| > 1
    ensures var below := stacks[t][|stacks[t]| - 2];
            var after := Apply(s, Resume(t)).threads[t].received;
            && below in s.suspended && (s.suspended[below].AfterRun? || s.suspended[below].AfterSwitch?)
            && (s.threads[t].phase.k.Start? ==> after.EntryArguments? && after.argOnRun == s.suspended[below].sent)
            && (s.threads[t].phase.k.AfterReturn? ==> after == FromReturn(s.suspended[below].sent))
  {
    assert Chain(s, t, stacks[t]);
    var n := |stacks[t]| - 1;
    assert WaitsOn(s, stacks[t][n - 1], stacks[t][n].g);
    assert ThreadOk(s, s.threads[t]);
  }

  /** Switch always hands back the argument it was itself given, whatever the fiber that
      switched back passed on. */
  lemma SwitchHandsBackOwnArgument(s: State, stacks: Stacks, t: Tid)
    requires Stacked(s, stacks) && Enabled(s, Resume(t)) && s.threads[t].phase.k.AfterSwitch?
    ensures Apply(s, Resume(t)).threads[t].received == FromSwitch(s.threads[t].phase.k.sent)
  {
    assert ReadOk(s, stacks, t);
  }

  // ---- Entering a fiber that is already on the stack loses the thread ----

  /** A ring of fibers, each of which goes back to the one before it, and the first to the
      last; the one at p runs. */
  ghost predicate InRing(s: State, t: Tid, ring: seq<Gid>, p: nat) {
    && IdentityOk(s) && GuestRuns(s, t) && p < |ring| && 2 <= |ring|
    && s.threads[t].running == FiberContext(ring[p])
    && (forall i, j | 0 <= i < j < |ring| :: ring[i] != ring[j])
    && (forall j | 0 <= j < |ring| :: RingLink(s, ring, j))
    && (forall j | 0 <= j < |ring| && j != p :: Waits(s, FiberContext(ring[j])))
  }

  function Previous(n: nat, j: nat): nat
    requires j < n
  {
    if j == 0 then n - 1 else j - 1
  }

  predicate RingLink(s: State, ring: seq<Gid>, j: nat)
    requires j < |ring|
  {
    ring[j] in s.fibers && s.fibers[ring[j]].resumeTo == Some(FiberContext(ring[Previous(|ring|, j)]))
  }

  predicate Waits(s: State, c: Context) {
    CanSwitchTo(s, c) && ReadsLive(s, s.suspended[c])
  }

  /** A return inside a ring goes to the previous fiber of the ring. */
  lemma RingTurns(s: State, t: Tid, ring: seq<Gid>, p: nat, arg: int)
    requires InRing(s, t, ring, p)
    ensures InRing(ReturnOnce(s, t, arg), t, ring, Previous(|ring|, p))
  {
    hide IdentityOk, SwitchTo;
    var q := Previous(|ring|, p);
    var g, back := ring[p], FiberContext(ring[q]);
    GuestIdentity(s, t);
    assert RingLink(s, ring, p) && Waits(s, back);
    var step := ReturnToThread(t, arg);
    assert Enabled(s, step);
    var left := Apply(s, step);
    IdentityKept(s, step);
    RingLeft(s, t, g, arg, back);
    assert Enabled(left, Resume(t));
    IdentityKept(left, Resume(t));
    ResumedRuns(left, t);
    var s' := ReturnOnce(s, t, arg);
    assert s'.fibers == left.fibers && s'.suspended == left.suspended;
    forall j | 0 <= j < |ring| ensures RingLink(s', ring, j) {
      assert RingLink(s, ring, j);
    }
    forall j | 0 <= j < |ring| && j != q ensures Waits(s', FiberContext(ring[j])) {
      if j != p {
        assert Waits(s, FiberContext(ring[j]));
      }
    }
  }

  /** What a ReturnToThread does to the contexts. */
  lemma RingLeft(s: State, t: Tid, g: Gid, arg: int, back: Context)
    requires Enabled(s, ReturnToThread(t, arg)) && s.threads[t].current == Some(g) && g in s.fibers
    requires s.threads[t].running == FiberContext(g) && s.fibers[g].resumeTo == Some(back) && back != FiberContext(g)
    ensures var left := Apply(s, ReturnToThread(t, arg));
            && left.fibers == s.fibers[g := s.fibers[g].(argOnReturn := arg)]
            && left.threads == s.threads[t := Thread(back, None, Resuming(s.suspended[back]), s.threads[t].received)]
            && FiberContext(g) in left.suspended && left.suspended[FiberContext(g)] == AfterReturn(g)
            && forall c <- s.suspended | c != back && c != FiberContext(g) ::
                 c in left.suspended && left.suspended[c] == s.suspended[c]
  {
  }

  lemma {:induction false} RingNeverEnds(s: State, t: Tid, ring: seq<Gid>, p: nat, args: seq<int>)
    requires InRing(s, t, ring, p)
    ensures GuestRuns(Returns(s, t, args), t) && Returns(s, t, args).threads[t].running != ThreadContext(t)
    decreases |args|
  {
    hide ReturnOnce;
    if |args| > 0 {
      RingTurns(s, t, ring, p, args[0]);
      RingNeverEnds(ReturnOnce(s, t, args[0]), t, ring, Previous(|ring|, p), args[1..]);
    }
  }

  function FibersOf(contexts: seq<Context>): (gs: seq<Gid>)
    requires forall i | 0 <= i < |contexts| :: contexts[i].FiberContext?
    ensures |gs| == |contexts| && forall i | 0 <= i < |gs| :: FiberContext(gs[i]) == contexts[i]
  {
    seq(|contexts|, i requires 0 <= i < |contexts| => contexts[i].g)
  }

  lemma EnteredWaits(s: State, t: Tid, g: Gid, arg: int, k: Continuation, c: Context)
    requires CanEnter(s, t, g, arg, k) && s.fibers[g].created && s.threads[t].running != FiberContext(g)
    requires c == s.threads[t].running || (c != FiberContext(g) && Waits(s, c))
    ensures Waits(Entered(s, t, g, arg, k), c)
  {
  }

  lemma EnteredLinks(s: State, t: Tid, g: Gid, arg: int, k: Continuation)
    requires CanEnter(s, t, g, arg, k)
    ensures var s' := Entered(s, t, g, arg, k);
            && s'.fibers.Keys == s.fibers.Keys && s'.fibers[g].resumeTo == Some(s.threads[t].running)
            && forall f <- s.fibers | f != g :: s'.fibers[f].resumeTo == s.fibers[f].resumeTo
  {
  }

  lemma EnteredRuns(s: State, t: Tid, g: Gid, arg: int, k: Continuation)
    requires CanEnter(s, t, g, arg, k) && s.fibers[g].created && Waits(s, FiberContext(g))
    ensures var s' := Entered(s, t, g, arg, k);
            && t in s'.threads && s'.threads[t].running == FiberContext(g)
            && s'.threads[t].phase == Resuming(s.suspended[FiberContext(g)]) && Enabled(s', Resume(t))
  {
  }

  /** The contexts from the entered fiber up to the running one close into a ring. */
  lemma RingForms(s: State, stacks: Stacks, t: Tid, g: Gid, arg: int, k: Continuation, i: nat)
    requires Stacked(s, stacks) && CanEnter(s, t, g, arg, k) && Occupies(stacks, t, i, FiberContext(g))
    ensures 0 < i < |stacks[t]| - 1 && (forall j | i <= j < |stacks[t]| :: stacks[t][j].FiberContext?)
    ensures var s' := Entered(s, t, g, arg, k);
            Enabled(s', Resume(t)) && InRing(Apply(s', Resume(t)), t, FibersOf(stacks[t][i..]), 0)
  {
    hide IdentityOk, Entered, IdleOk, ReadOk, Prepared, SwitchTo;
    var stack := stacks[t];
    assert Chain(s, t, stack);
    var n := |stack| - 1;
    assert i > 0;
    assert WaitsOn(s, stack[i - 1], g);
    assert i < n by { NotRunning(s, stacks, t, g, arg, k); }
    forall j | i <= j < n ensures Waits(s, stack[j]) {
      assert WaitsOn(s, stack[j], stack[j + 1].g);
    }
    forall a, b | 0 <= a < b <= n ensures stack[a] != stack[b] {
      assert Occupies(stacks, t, a, stack[a]) && Occupies(stacks, t, b, stack[b]);
    }
    var s' := Entered(s, t, g, arg, k);
    EnterKeepsIdentity(s, t, g, arg, k);
    EnteredRuns(s, t, g, arg, k);
    EnteredLinks(s, t, g, arg, k);
    IdentityKept(s', Resume(t));
    ResumedRuns(s', t);
    var ring, r := FibersOf(stack[i..]), Apply(s', Resume(t));
    assert r.fibers == s'.fibers && r.suspended == s'.suspended;
    forall j | 0 <= j < |ring| ensures RingLink(r, ring, j) {
      assert WaitsOn(s, stack[i + j - 1], ring[j]);
    }
    forall j | 0 <= j < |ring| && j != 0 ensures Waits(r, FiberContext(ring[j])) {
      EnteredWaits(s, t, g, arg, k, stack[i + j]);
      assert Waits(s', stack[i + j]);
    }
  }

  lemma NotRunning(s: State, stacks: Stacks, t: Tid, g: Gid, arg: int, k: Continuation)
    requires Stacked(s, stacks) && CanEnter(s, t, g, arg, k) && s.fibers[g].created
    ensures s.threads[t].running != FiberContext(g)
  {
  }

  // ---- Whole runs ----

  /** A run in which every step is disciplined, with the stacks it builds. */
  ghost predicate Nests(s0: State, steps: seq<Step>, stacks: Stacks)
    decreases |steps|
  {
    if |steps| == 0 then stacks == (map t | t in s0.threads :: [ThreadContext(t)])
    else
      var before, last := steps[..|steps| - 1], steps[|steps| - 1];
      exists prior ::
        && Nests(s0, before, prior) && last.t in prior
        && Disciplined(Exec(s0, before), prior, last) && stacks == NextStacks(Exec(s0, before), prior, last)
  }

  lemma {:induction false} NestingHolds(s0: State, steps: seq<Step>, stacks: Stacks)
    requires Init(s0) && Nests(s0, steps, stacks)
    ensures Stacked(Exec(s0, steps), stacks)
    decreases |steps|
  {
    hide Apply, NextStacks, Stacked, Disciplined, Init;
    if |steps| == 0 {
      StartsStacked(s0, stacks);
    } else {
      var before, last := steps[..|steps| - 1], steps[|steps| - 1];
      var prior :| && Nests(s0, before, prior) && last.t in prior
                   && Disciplined(Exec(s0, before), prior, last) && stacks == NextStacks(Exec(s0, before), prior, last);
      NestingHolds(s0, before, prior);
      StacksKept(Exec(s0, before), prior, last);
      assert Enabled(Exec(s0, before), last) by { DisciplineEnables(Exec(s0, before), prior, last); }
    }
  }

  lemma DisciplineEnables(s: State, stacks: Stacks, step: Step)
    requires Disciplined(s, stacks, step)
    ensures Enabled(s, step)
  {
  }

  lemma StartsStacked(s: State, stacks: Stacks)
    requires Init(s) && stacks == map t | t in s.threads :: [ThreadContext(t)]
    ensures Stacked(s, stacks)
  {
    StartsOk(s);
  }

  /** Outside the discipline results get lost: when a thread enters a fiber whose last result
      has not been read yet, which the host allows, and the fiber returns again, the first
      thread's Run hands out the second value. */
  lemma ResultRace(s: State, stacks: Stacks, t: Tid, u: Tid, handle: Handle, arg: int, value: int)
    requires Stacked(s, stacks) && t != u && GuestRuns(s, u) && handle in s.registry
    requires Reads(s, t, s.registry[handle]) && s.threads[t].phase.k.AfterRun?
    requires var c := FiberContext(s.registry[handle]); c in s.suspended && s.suspended[c] == AfterReturn(c.g)
    requires s.registry[handle] in s.fibers && s.fibers[s.registry[handle]].created
    ensures Enabled(s, Run(u, handle, arg))
    ensures var s1 := Apply(s, Run(u, handle, arg));
            && Enabled(s1, Resume(u))
            && var s2 := Apply(s1, Resume(u));
               && Enabled(s2, ReturnToThread(u, value))
               && var s3 := Apply(s2, ReturnToThread(u, value));
                  Enabled(s3, Resume(t)) && Apply(s3, Resume(t)).threads[t].received == FromRun(value)
  {
    hide IdentityOk, Stacked, Entered, SwitchTo;
    var g := s.registry[handle];
    var k := AfterRun(s.threads[u].current, g, arg);
    assert g in s.fibers && s.threads[u].running != FiberContext(g) by { RegistryLive(s, stacks, u, handle); }
    assert CanEnter(s, u, g, arg, k);
    var s1 := Entered(s, u, g, arg, k);
    EnterStartsWait(s, u, g, arg, k);
    EnteredRuns(s, u, g, arg, k);
    assert s1 == Apply(s, Run(u, handle, arg)) by { EnteredIsRun(s, u, handle, arg); }
    var s2 := Apply(s1, Resume(u));
    assert s2.threads[u].running == FiberContext(g) && s2.threads[u].current == Some(g);
    RingLeft(s2, u, g, value, s.threads[u].running);
  }

  lemma RegistryLive(s: State, stacks: Stacks, u: Tid, handle: Handle)
    requires Stacked(s, stacks) && u in s.threads && handle in s.registry
    ensures s.registry[handle] in s.fibers && s.threads[u].running !in s.suspended
  {
  }

  lemma EnteredIsRun(s: State, u: Tid, handle: Handle, arg: int)
    requires u in s.threads && handle in s.registry
    requires CanEnter(s, u, s.registry[handle], arg, AfterRun(s.threads[u].current, s.registry[handle], arg))
    ensures Enabled(s, Run(u, handle, arg))
    ensures Apply(s, Run(u, handle, arg))
              == Entered(s, u, s.registry[handle], arg, AfterRun(s.threads[u].current, s.registry[handle], arg))
  {
  }
}
