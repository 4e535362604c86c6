/** Guest fibers on top of host fibers.

    A host context is the original context of a thread or the host fiber made for a guest
    fiber.  At any time a thread executes one context; every other context is suspended at a
    SwitchToFiber, and its continuation says what its code does when that call returns.
    SwitchToFiber itself is one step; the code after it is another. */
module Fibers {

  import opened Options

  type Tid = nat
  /** A GuestFiber object. */
  type Gid = nat
  /** The guest's SceFiber pointer. */
  type Handle = nat

  datatype Context = ThreadContext(tid: Tid) | FiberContext(g: Gid)

  /** What a suspended context does when SwitchToFiber returns in it.  `previous` and `sent`
      are the saved `t_current` and the argument, in the frame of the suspended call. */
  datatype Continuation =
    | Start                                                            // FiberProc not yet entered
    | AfterRun(previous: Option<Gid>, target: Gid, sent: int)          // inside Run
    | AfterSwitch(previous: Option<Gid>, target: Gid, sent: int)       // inside Switch
    | AfterReturn(self: Gid)                                           // inside ReturnToThread
    | Finished                                                         // FiberProc is over

  datatype GuestFiber = GuestFiber(
    argOnInitialize: int, argOnRun: int, argOnReturn: int, resumeTo: Option<Context>, created: bool)

  /** What the guest last received: from the entry function's parameters, or from a call. */
  datatype Received =
    | Nothing
    | EntryArguments(argOnInitialize: int, argOnRun: int)
    | FromRun(argOnReturn: int)
    | FromSwitch(argOnRun: int)
    | FromReturn(argOnRun: int)

  datatype Phase = Guest | Resuming(k: Continuation)

  datatype Thread = Thread(running: Context, current: Option<Gid>, phase: Phase, received: Received)

  datatype State = State(
    registry: map<Handle, Gid>,
    fibers: map<Gid, GuestFiber>,
    suspended: map<Context, Continuation>,
    threads: map<Tid, Thread>)

  datatype Step =
    | Initialize(t: Tid, handle: Handle, g: Gid, arg: int)
    | Run(t: Tid, handle: Handle, arg: int)
    | Switch(t: Tid, handle: Handle, arg: int)
    | ReturnToThread(t: Tid, arg: int)
    | EntryReturns(t: Tid)
    | Finalize(t: Tid, handle: Handle)
    | Resume(t: Tid)

  /** The fiber whose context this is. */
  function Identity(c: Context): Option<Gid> {
    match c case ThreadContext(_) => None case FiberContext(g) => Some(g)
  }

  // ---- The calls ----

  /** SwitchToFiber needs a target that is suspended and whose code is not over. */
  predicate CanSwitchTo(s: State, target: Context) {
    target in s.suspended && !s.suspended[target].Finished?
  }

  /** SwitchToFiber: the running context of t is suspended with k, and target runs. */
  function SwitchTo(s: State, t: Tid, current: Option<Gid>, k: Continuation, target: Context): State
    requires t in s.threads && CanSwitchTo(s, target)
  {
    var me := s.threads[t];
    s.(suspended := (map c | c in s.suspended && c != target :: s.suspended[c])[me.running := k],
       threads := s.threads[t := Thread(target, current, Resuming(s.suspended[target]), me.received)])
  }

  /** Run and Switch up to SwitchToFiber: the argument, the way back, and the host fiber. */
  function Prepared(s: State, t: Tid, g: Gid, arg: int): State
    requires t in s.threads && g in s.fibers
  {
    var gf := s.fibers[g].(argOnRun := arg, resumeTo := Some(s.threads[t].running), created := true);
    s.(fibers := s.fibers[g := gf],
       suspended := if s.fibers[g].created then s.suspended else s.suspended[FiberContext(g) := Start])
  }

  function ResumeTarget(s: State, t: Tid, g: Gid): Context
    requires g in s.fibers
  {
    match s.fibers[g].resumeTo case Some(c) => c case None => ThreadContext(t)
  }

  predicate GuestRuns(s: State, t: Tid) {
    t in s.threads && s.threads[t].phase.Guest?
  }

  /** What the host demands at each call: see CanSwitchTo; and that no fiber is freed while
      it runs or is waited for. */
  predicate Enabled(s: State, step: Step) {
    && step.t in s.threads
    && var me := s.threads[step.t];
       match step
       case Initialize(_, handle, g, _) => me.phase.Guest? && handle !in s.registry && g !in s.fibers
       case Run(_, handle, arg) =>
         && me.phase.Guest?
         && (handle in s.registry ==>
               var g := s.registry[handle];
               g in s.fibers && CanSwitchTo(Prepared(s, step.t, g, arg), FiberContext(g)))
       case Switch(_, handle, arg) =>
         && me.phase.Guest?
         && (handle in s.registry ==>
               var g := s.registry[handle];
               g in s.fibers && CanSwitchTo(Prepared(s, step.t, g, arg), FiberContext(g)))
       case ReturnToThread(_, _) =>
         && me.phase.Guest?
         && (me.current.Some? ==>
               me.current.value in s.fibers && CanSwitchTo(s, ResumeTarget(s, step.t, me.current.value)))
       case EntryReturns(_) =>
         && me.phase.Guest? && me.running.FiberContext? && me.running.g in s.fibers
         && CanSwitchTo(s, ResumeTarget(s, step.t, me.running.g))
       case Finalize(_, handle) =>
         && me.phase.Guest?
         && (handle in s.registry ==> !InUse(s, s.registry[handle]))
       case Resume(_) => me.phase.Resuming? && ReadsLive(s, me.phase.k)
  }

  predicate InUse(s: State, g: Gid) {
    || (exists t <- s.threads :: s.threads[t].running == FiberContext(g) || WaitsFor(s.threads[t], g))
    || (exists c <- s.suspended :: Targets(s.suspended[c], g))
  }

  predicate WaitsFor(th: Thread, g: Gid) {
    th.phase.Resuming? && Targets(th.phase.k, g)
  }

  predicate Targets(k: Continuation, g: Gid) {
    (k.AfterRun? || k.AfterSwitch?) && k.target == g
  }

  /** The object a resumed call reads its result from still exists. */
  predicate ReadsLive(s: State, k: Continuation) {
    k.AfterRun? || k.AfterSwitch? ==> k.target in s.fibers
  }

  /** The code after SwitchToFiber: repair of `t_current`, then the result. */
  function Resumed(s: State, th: Thread, k: Continuation): Thread
    requires ReadsLive(s, k)
  {
    match k
    case Start =>
      if th.running.FiberContext? && th.running.g in s.fibers then
        var g := th.running.g;
        Thread(th.running, Some(g), Guest, EntryArguments(s.fibers[g].argOnInitialize, s.fibers[g].argOnRun))
      else th
    case AfterRun(previous, target, _) => Thread(th.running, previous, Guest, FromRun(s.fibers[target].argOnReturn))
    case AfterSwitch(previous, target, _) => Thread(th.running, previous, Guest, FromSwitch(s.fibers[target].argOnRun))
    case AfterReturn(self) =>
      if self in s.fibers then Thread(th.running, Some(self), Guest, FromReturn(s.fibers[self].argOnRun)) else th
    case Finished => th
  }

  function Apply(s: State, step: Step): State
    requires Enabled(s, step)
  {
    var t := step.t;
    var me := s.threads[t];
    match step
    case Initialize(_, handle, g, arg) =>
      s.(registry := s.registry[handle := g], fibers := s.fibers[g := GuestFiber(arg, 0, 0, None, false)])
    case Run(_, handle, arg) =>
      if handle !in s.registry then s
      else
        var g := s.registry[handle];
        SwitchTo(Prepared(s, t, g, arg), t, me.current, AfterRun(me.current, g, arg), FiberContext(g))
    case Switch(_, handle, arg) =>
      if handle !in s.registry then s
      else
        var g := s.registry[handle];
        SwitchTo(Prepared(s, t, g, arg), t, me.current, AfterSwitch(me.current, g, arg), FiberContext(g))
    case ReturnToThread(_, arg) =>
      if me.current.None? then s
      else
        var g := me.current.value;
        var back := ResumeTarget(s, t, g);
        SwitchTo(s.(fibers := s.fibers[g := s.fibers[g].(argOnReturn := arg)]), t, None, AfterReturn(g), back)
    case EntryReturns(_) =>
      SwitchTo(s, t, None, Finished, ResumeTarget(s, t, me.running.g))
    case Finalize(_, handle) =>
      if handle !in s.registry then s
      else
        var g := s.registry[handle];
        s.(registry := map h | h in s.registry && s.registry[h] != g :: s.registry[h],
           fibers := map f | f in s.fibers && f != g :: s.fibers[f],
           suspended := map c | c in s.suspended && c != FiberContext(g) :: s.suspended[c])
    case Resume(_) => s.(threads := s.threads[t := Resumed(s, me, me.phase.k)])
  }

  ghost predicate Init(s: State) {
    && s.registry == map[] && s.fibers == map[] && s.suspended == map[]
    && forall t <- s.threads :: s.threads[t] == Thread(ThreadContext(t), None, Guest, Nothing)
  }

  ghost function Exec(s: State, steps: seq<Step>): State {
    if |steps| == 0 then s
    else
      var before := Exec(s, steps[..|steps| - 1]);
      if Enabled(before, steps[|steps| - 1]) then Apply(before, steps[|steps| - 1]) else before
  }

  // ---- Fiber identity ----

  /** A continuation that will repair `t_current` to the fiber of its own context. */
  predicate Repairs(s: State, c: Context, k: Continuation) {
    && (c.FiberContext? ==> c.g in s.fibers)
    && match k
    case Start => c.FiberContext?
    case AfterRun(previous, _, _) => previous == Identity(c)
    case AfterSwitch(previous, _, _) => previous == Identity(c)
    case AfterReturn(self) => c == FiberContext(self)
    case Finished => true
  }

  predicate ThreadOk(s: State, th: Thread) {
    && (th.phase.Guest? ==> th.current == Identity(th.running))
    && (th.phase.Resuming? ==> Repairs(s, th.running, th.phase.k) && !th.phase.k.Finished?)
    && (th.running.FiberContext? ==> th.running.g in s.fibers)
  }

  ghost predicate IdentityOk(s: State) {
    && (forall t <- s.threads :: ThreadOk(s, s.threads[t]))
    && (forall c <- s.suspended :: Repairs(s, c, s.suspended[c]))
    && (forall h <- s.registry :: s.registry[h] in s.fibers)
  }

  lemma SwitchKeepsIdentity(s: State, t: Tid, k: Continuation, target: Context, current: Option<Gid>)
    requires IdentityOk(s) && t in s.threads && CanSwitchTo(s, target) && Repairs(s, s.threads[t].running, k)
    ensures IdentityOk(SwitchTo(s, t, current, k, target))
  {
  }

  lemma PreparedKeepsIdentity(s: State, t: Tid, g: Gid, arg: int)
    requires IdentityOk(s) && t in s.threads && g in s.fibers
    ensures IdentityOk(Prepared(s, t, g, arg))
  {
  }

  lemma FinalizeKeepsIdentity(s: State, t: Tid, handle: Handle)
    requires IdentityOk(s) && Enabled(s, Finalize(t, handle)) && handle in s.registry
    ensures IdentityOk(Apply(s, Finalize(t, handle)))
  {
    var s', g := Apply(s, Finalize(t, handle)), s.registry[handle];
    forall u <- s'.threads ensures ThreadOk(s', s'.threads[u]) {
      assert ThreadOk(s, s.threads[u]) && s.threads[u].running != FiberContext(g);
    }
    forall c <- s'.suspended ensures Repairs(s', c, s'.suspended[c]) {
      assert Repairs(s, c, s.suspended[c]);
    }
  }

  lemma ResumeKeepsIdentity(s: State, t: Tid)
    requires IdentityOk(s) && Enabled(s, Resume(t))
    ensures IdentityOk(Apply(s, Resume(t)))
  {
    assert ThreadOk(s, s.threads[t]);
  }

  lemma IdentityKept(s: State, step: Step)
    requires IdentityOk(s) && Enabled(s, step)
    ensures IdentityOk(Apply(s, step))
  {
    var t, me := step.t, s.threads[step.t];
    assert ThreadOk(s, me);
    match step
    case Initialize(_, _, _, _) =>
    case Run(_, handle, arg) =>
      if handle in s.registry {
        var g := s.registry[handle];
        PreparedKeepsIdentity(s, t, g, arg);
        SwitchKeepsIdentity(Prepared(s, t, g, arg), t, AfterRun(me.current, g, arg), FiberContext(g), me.current);
      }
    case Switch(_, handle, arg) =>
      if handle in s.registry {
        var g := s.registry[handle];
        PreparedKeepsIdentity(s, t, g, arg);
        SwitchKeepsIdentity(Prepared(s, t, g, arg), t, AfterSwitch(me.current, g, arg), FiberContext(g), me.current);
      }
    case ReturnToThread(_, arg) =>
      if me.current.Some? {
        var g := me.current.value;
        var told := s.(fibers := s.fibers[g := s.fibers[g].(argOnReturn := arg)]);
        SwitchKeepsIdentity(told, t, AfterReturn(g), ResumeTarget(s, t, g), None);
      }
    case EntryReturns(_) => SwitchKeepsIdentity(s, t, Finished, ResumeTarget(s, t, me.running.g), None);
    case Finalize(_, handle) =>
      if handle in s.registry {
        FinalizeKeepsIdentity(s, t, handle);
      }
    case Resume(_) => ResumeKeepsIdentity(s, t);
  }

  /** In every run with any number of threads and fibers: whenever guest code executes on a
      thread, its `t_current` is the fiber whose context is executing, or null in the
      thread's own context. */
  lemma {:induction false} CurrentIsRunning(s0: State, steps: seq<Step>)
    requires Init(s0)
    ensures IdentityOk(Exec(s0, steps))
    ensures forall t <- Exec(s0, steps).threads :: GuestRuns(Exec(s0, steps), t) ==>
              Exec(s0, steps).threads[t].current == Identity(Exec(s0, steps).threads[t].running)
  {
    hide Apply, Enabled, ThreadOk, Repairs;
    if |steps| == 0 {
      StartsOk(s0);
    } else {
      var before := Exec(s0, steps[..|steps| - 1]);
      CurrentIsRunning(s0, steps[..|steps| - 1]);
      if Enabled(before, steps[|steps| - 1]) {
        IdentityKept(before, steps[|steps| - 1]);
      }
    }
    forall t <- Exec(s0, steps).threads
      ensures GuestRuns(Exec(s0, steps), t) ==>
                Exec(s0, steps).threads[t].current == Identity(Exec(s0, steps).threads[t].running)
    {
      GuestIdentity(Exec(s0, steps), t);
    }
  }

  /** Each handle has its own fiber. */
  ghost predicate HandlesApart(s: State) {
    forall h <- s.registry, k <- s.registry :: s.registry[h] == s.registry[k] ==> h == k
  }

  lemma ApartKept(s: State, step: Step)
    requires IdentityOk(s) && HandlesApart(s) && Enabled(s, step)
    ensures HandlesApart(Apply(s, step))
  {
    hide ThreadOk, Repairs;
  }

  lemma {:induction false} HandlesStayApart(s0: State, steps: seq<Step>)
    requires Init(s0)
    ensures HandlesApart(Exec(s0, steps))
  {
    hide Apply, Enabled, HandlesApart, IdentityOk;
    if |steps| == 0 {
      assert HandlesApart(s0) by { StartsApart(s0); }
    } else {
      var before := steps[..|steps| - 1];
      HandlesStayApart(s0, before);
      CurrentIsRunning(s0, before);
      if Enabled(Exec(s0, before), steps[|steps| - 1]) {
        ApartKept(Exec(s0, before), steps[|steps| - 1]);
      }
    }
  }

  lemma StartsApart(s: State)
    requires Init(s)
    ensures HandlesApart(s)
  {
  }

  lemma StartsOk(s: State)
    requires Init(s)
    ensures IdentityOk(s)
  {
  }

  lemma GuestIdentity(s: State, t: Tid)
    requires IdentityOk(s)
    ensures GuestRuns(s, t) ==> s.threads[t].current == Identity(s.threads[t].running)
  {
    assert t in s.threads ==> ThreadOk(s, s.threads[t]);
  }
}
