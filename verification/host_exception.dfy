/** One-shot installation of the host exception handler.

    Any number of threads call InstallHandler at the same time.  Every atomic operation on
    `g_handler` and `g_install_state`, and the registration of the vectored filter, is one
    step. */
module HandlerInstallation {

  type Tid = nat
  /** The address of a handler; 0 is the null pointer. */
  type Handler = nat

  datatype Pc =
    | Outside                                // not in InstallHandler
    | Entered(h: Handler)                    // before the compare-and-swap
    | Lost(h: Handler, seen: nat)            // compare-and-swap failed, having read `seen`
    | Won(h: Handler)                        // state is 1, handler not yet stored
    | Stored(h: Handler)                     // handler stored, filter not yet registered
    | Failing(h: Handler)                    // registration failed, handler not yet cleared
    | Cleared(h: Handler)                    // handler cleared, state not yet reset
    | Registered(h: Handler)                 // filter registered, state not yet 2
    | Returned(h: Handler, success: bool)

  /** `filters` counts the filters registered with the system so far. */
  datatype State = State(handler: Handler, state: nat, filters: nat, threads: map<Tid, Pc>)

  datatype Step =
    | Call(t: Tid, h: Handler)
    | Next(t: Tid, registrationWorks: bool)

  ghost predicate Init(s: State) {
    s.handler == 0 && s.state == 0 && s.filters == 0 && forall t <- s.threads :: s.threads[t].Outside?
  }

  predicate Enabled(s: State, step: Step) {
    && step.t in s.threads
    && var pc := s.threads[step.t];
       if step.Call? then pc.Outside? || pc.Returned? else !pc.Outside? && !pc.Returned?
  }

  function To(s: State, t: Tid, pc: Pc): State {
    s.(threads := s.threads[t := pc])
  }

  function Apply(s: State, step: Step): State
    requires Enabled(s, step)
  {
    var t := step.t;
    match step
    case Call(_, h) => To(s, t, if h == 0 then Returned(h, false) else Entered(h))
    case Next(_, works) =>
      match s.threads[t]
      case Entered(h) =>
        if s.state == 0 then To(s.(state := 1), t, Won(h)) else To(s, t, Lost(h, s.state))
      case Lost(h, seen) => To(s, t, Returned(h, seen == 2 && s.handler == h))
      case Won(h) => To(s.(handler := h), t, Stored(h))
      case Stored(h) => if works then To(s.(filters := s.filters + 1), t, Registered(h)) else To(s, t, Failing(h))
      case Failing(h) => To(s.(handler := 0), t, Cleared(h))
      case Cleared(h) => To(s.(state := 0), t, Returned(h, false))
      case Registered(h) => To(s.(state := 2), t, Returned(h, true))
      case _ => s
  }

  ghost function Exec(s: State, steps: seq<Step>): State {
    if |steps| == 0 then s
    else
      var before := Exec(s, steps[..|steps| - 1]);
      if Enabled(before, steps[|steps| - 1]) then Apply(before, steps[|steps| - 1]) else before
  }

  /** Between winning the compare-and-swap and returning. */
  predicate Installing(pc: Pc) {
    pc.Won? || pc.Stored? || pc.Failing? || pc.Cleared? || pc.Registered?
  }

  /** What a thread at pc may rely on. */
  predicate ThreadOk(s: State, pc: Pc) {
    match pc
    case Outside => true
    case Entered(h) => h != 0
    case Lost(h, seen) => h != 0 && seen != 0 && (seen == 2 ==> s.state == 2)
    case Won(h) => h != 0 && s.state == 1 && s.filters == 0 && s.handler == 0
    case Stored(h) => h != 0 && s.state == 1 && s.filters == 0 && s.handler == h
    case Failing(h) => s.state == 1 && s.filters == 0 && s.handler == h
    case Cleared(h) => s.state == 1 && s.filters == 0 && s.handler == 0
    case Registered(h) => h != 0 && s.state == 1 && s.filters == 1 && s.handler == h
    case Returned(h, success) => success ==> s.state == 2 && s.handler == h
  }

  predicate SharedOk(s: State) {
    && s.state <= 2
    && (s.state == 0 ==> s.handler == 0 && s.filters == 0)
    && (s.state == 2 ==> s.handler != 0 && s.filters == 1)
  }

  ghost predicate OneInstaller(s: State) {
    forall t <- s.threads, u <- s.threads | Installing(s.threads[t]) && Installing(s.threads[u]) :: t == u
  }

  ghost predicate SomeInstaller(s: State) {
    s.state == 1 ==> exists t <- s.threads :: Installing(s.threads[t])
  }

  ghost predicate Invariant(s: State) {
    && SharedOk(s) && OneInstaller(s) && SomeInstaller(s)
    && forall t <- s.threads :: ThreadOk(s, s.threads[t])
  }

  /** A step keeps what its own thread relies on. */
  lemma OwnThreadKept(s: State, step: Step)
    requires Enabled(s, step) && SharedOk(s) && ThreadOk(s, s.threads[step.t])
    ensures SharedOk(Apply(s, step)) && ThreadOk(Apply(s, step), Apply(s, step).threads[step.t])
    ensures s.state == 2 ==> Apply(s, step).(threads := s.threads) == s
  {
  }

  /** A step keeps what another thread relies on, unless both are installing. */
  lemma OtherThreadKept(s: State, step: Step, pc: Pc)
    requires Enabled(s, step) && SharedOk(s) && ThreadOk(s, s.threads[step.t]) && ThreadOk(s, pc)
    requires !Installing(s.threads[step.t]) || !Installing(pc)
    ensures ThreadOk(Apply(s, step), pc)
  {
  }

  /** Only the compare-and-swap starts an installation, and it needs state 0. */
  lemma InstallersKept(s: State, step: Step)
    requires Enabled(s, step) && Invariant(s)
    ensures OneInstaller(Apply(s, step)) && SomeInstaller(Apply(s, step))
  {
    var s', t := Apply(s, step), step.t;
    if Installing(s'.threads[t]) && !Installing(s.threads[t]) {
      forall u <- s.threads ensures !Installing(s.threads[u]) {
        assert ThreadOk(s, s.threads[u]);
      }
    }
    if s'.state == 1 && !Installing(s'.threads[t]) {
      assert s.state == 1 && !Installing(s.threads[t]) by { StaysOne(s, step); }
      var u :| u in s.threads && Installing(s.threads[u]);
      assert s'.threads[u] == s.threads[u];
    }
  }

  lemma StaysOne(s: State, step: Step)
    requires Enabled(s, step) && ThreadOk(s, s.threads[step.t])
    requires Apply(s, step).state == 1 && !Installing(Apply(s, step).threads[step.t])
    ensures s.state == 1 && !Installing(s.threads[step.t])
  {
  }

  /** Every step keeps the invariant; once the state is 2, nothing shared changes again. */
  lemma InvariantKept(s: State, step: Step)
    requires Invariant(s) && Enabled(s, step)
    ensures Invariant(Apply(s, step))
    ensures s.state == 2 ==> Apply(s, step).(threads := s.threads) == s
  {
    hide Apply, ThreadOk, SharedOk, Installing;
    var s', t := Apply(s, step), step.t;
    OwnThreadKept(s, step);
    InstallersKept(s, step);
    OnlyOneMoves(s, step);
    forall u <- s'.threads ensures ThreadOk(s', s'.threads[u]) {
      if u != t {
        OtherThreadKept(s, step, s.threads[u]);
      }
    }
  }

  lemma OnlyOneMoves(s: State, step: Step)
    requires Enabled(s, step)
    ensures Apply(s, step).threads.Keys == s.threads.Keys
    ensures forall u <- s.threads | u != step.t :: Apply(s, step).threads[u] == s.threads[u]
  {
  }

  lemma {:induction false} Reachable(s0: State, steps: seq<Step>)
    requires Init(s0)
    ensures Invariant(Exec(s0, steps))
  {
    hide Apply, ThreadOk, SharedOk, OneInstaller, SomeInstaller;
    if |steps| == 0 {
      assert Invariant(s0) by { InitOk(s0); }
    } else {
      var before := Exec(s0, steps[..|steps| - 1]);
      Reachable(s0, steps[..|steps| - 1]);
      if Enabled(before, steps[|steps| - 1]) {
        InvariantKept(before, steps[|steps| - 1]);
      }
    }
  }

  lemma InitOk(s: State)
    requires Init(s)
    ensures Invariant(s)
  {
  }

  /** In every run at most one filter is ever registered, and a registered filter never
      reaches the fail-fast branches for a state of 0 or a null handler. */
  lemma FilterIsSafe(s0: State, steps: seq<Step>)
    requires Init(s0)
    ensures var s := Exec(s0, steps); s.filters <= 1 && (s.filters > 0 ==> s.state != 0 && s.handler != 0)
  {
    Reachable(s0, steps);
    var s := Exec(s0, steps);
    if s.state == 1 {
      var t :| t in s.threads && Installing(s.threads[t]);
      assert ThreadOk(s, s.threads[t]);
    }
  }

  ghost predicate Succeeded(s: State, t: Tid, h: Handler) {
    t in s.threads && s.threads[t] == Returned(h, true)
  }

  /** After a call has returned true its handler is installed, however the run goes on. */
  lemma {:induction false} SuccessIsFinal(s0: State, steps: seq<Step>, n: nat, t: Tid, h: Handler)
    requires Init(s0) && n <= |steps| && Succeeded(Exec(s0, steps[..n]), t, h)
    ensures Exec(s0, steps).state == 2 && Exec(s0, steps).filters == 1 && Exec(s0, steps).handler == h
  {
    hide Apply, Installing, OneInstaller, SomeInstaller;
    if n < |steps| {
      var before := steps[..|steps| - 1];
      assert before[..n] == steps[..n];
      SuccessIsFinal(s0, before, n, t, h);
      Reachable(s0, before);
      if Enabled(Exec(s0, before), steps[|steps| - 1]) {
        InvariantKept(Exec(s0, before), steps[|steps| - 1]);
      }
    } else {
      assert steps[..n] == steps;
      Reachable(s0, steps);
      assert ThreadOk(Exec(s0, steps), Returned(h, true));
    }
  }

  /** Two successful calls, whenever they returned, were given the same handler. */
  lemma SuccessesAgree(s0: State, steps: seq<Step>, n: nat, t: Tid, h: Handler, m: nat, u: Tid, k: Handler)
    requires Init(s0) && n <= |steps| && m <= |steps|
    requires Succeeded(Exec(s0, steps[..n]), t, h) && Succeeded(Exec(s0, steps[..m]), u, k)
    ensures h == k
  {
    SuccessIsFinal(s0, steps, n, t, h);
    SuccessIsFinal(s0, steps, m, u, k);
  }

  // ---- A call that nobody disturbs ----

  /** Whether a call for h on its own succeeds. */
  predicate SucceedsAlone(handler: Handler, state: nat, h: Handler, works: bool) {
    h != 0 && (if state == 0 then works else state == 2 && handler == h)
  }

  class Installer {
    var handler: Handler
    var state: nat
    var filters: nat

    constructor ()
      ensures handler == 0 && state == 0 && filters == 0
    {
      handler, state, filters := 0, 0, 0;
    }

    method CompareExchange(expected: nat, desired: nat) returns (exchanged: bool, seen: nat)
      modifies this`state
      ensures seen == old(state) && exchanged == (old(state) == expected)
      ensures state == if exchanged then desired else old(state)
    {
      seen, exchanged := state, state == expected;
      if exchanged {
        state := desired;
      }
    }

    /** A failed registration leaves no trace of the handler; a failed call changes nothing else. */
    method Install(h: Handler, registrationWorks: bool) returns (ok: bool)
      modifies this
      ensures ok == SucceedsAlone(old(handler), old(state), h, registrationWorks)
      ensures if h != 0 && old(state) == 0 then
                if ok then handler == h && state == 2 && filters == old(filters) + 1
                else handler == 0 && state == 0 && filters == old(filters)
              else handler == old(handler) && state == old(state) && filters == old(filters)
    {
      if h == 0 {
        return false;
      }
      var won, seen := CompareExchange(0, 1);
      if !won {
        return seen == 2 && handler == h;
      }
      handler := h;
      if !registrationWorks {
        handler := 0;
        state := 0;
        return false;
      }
      filters := filters + 1;
      state := 2;
      return true;
    }
  }

  /** The steps of one undisturbed call; a call that ends early ignores the rest. */
  function AloneSteps(t: Tid, h: Handler, works: bool): seq<Step> {
    [Call(t, h), Next(t, works), Next(t, works), Next(t, works), Next(t, works), Next(t, works)]
  }

  function Stepped(s: State, step: Step): State {
    if Enabled(s, step) then Apply(s, step) else s
  }

  lemma ExecAlone(s: State, t: Tid, h: Handler, works: bool)
    ensures var n := Next(t, works);
            Exec(s, AloneSteps(t, h, works)) ==
              Stepped(Stepped(Stepped(Stepped(Stepped(Stepped(s, Call(t, h)), n), n), n), n), n)
  {
    hide Apply, Enabled;
    var steps := AloneSteps(t, h, works);
    assert steps[..5][..4] == steps[..4] && steps[..4][..3] == steps[..3] && steps[..3][..2] == steps[..2];
    assert steps[..2][..1] == steps[..1] && steps[..1][..0] == [];
    ExecLast(s, steps[..1]);
    ExecLast(s, steps[..2]);
    ExecLast(s, steps[..3]);
    ExecLast(s, steps[..4]);
    ExecLast(s, steps[..5]);
    ExecLast(s, steps);
  }

  lemma ExecLast(s: State, steps: seq<Step>)
    requires |steps| > 0
    ensures Exec(s, steps) == Stepped(Exec(s, steps[..|steps| - 1]), steps[|steps| - 1])
  {
  }

  /** Step by step, an undisturbed call ends as Installer.Install says. */
  lemma AloneAgrees(s: State, t: Tid, h: Handler, works: bool)
    requires t in s.threads && s.threads[t].Outside?
    ensures var s' := Exec(s, AloneSteps(t, h, works));
            var ok := SucceedsAlone(s.handler, s.state, h, works);
            t in s'.threads && s'.threads[t] == Returned(h, ok) &&
            if h != 0 && s.state == 0 then
              if ok then s'.handler == h && s'.state == 2 && s'.filters == s.filters + 1
              else s'.handler == 0 && s'.state == 0 && s'.filters == s.filters
            else s'.handler == s.handler && s'.state == s.state && s'.filters == s.filters
  {
    hide Exec;
    ExecAlone(s, t, h, works);
  }
}
