/** Runs from the start in which fibers are entered outside the nesting discipline. */
module FiberRuns {

  import opened Options
  import opened Fibers
  import opened FiberStacks

  /** One more enabled step at the end of a run. */
  lemma Then(s0: State, steps: seq<Step>, s: State, step: Step, s': State)
    requires Exec(s0, steps) == s && Enabled(s, step) && Apply(s, step) == s'
    ensures Exec(s0, steps + [step]) == s'
  {
    hide Enabled, Apply;
    assert (steps + [step])[..|steps|] == steps;
  }

  // ---- A ring: fiber 1 switches to fiber 2, which switches back to 1 ----

  const REGISTRY: map<Handle, Gid> := map[1 := 1, 2 := 2]

  function Fiber(arg: int, back: Option<Context>): GuestFiber {
    GuestFiber(0, arg, 0, back, back.Some?)
  }

  /** Both fibers exist, and thread 0 is in its own context. */
  function Begun(): State {
    State(REGISTRY, map[1 := Fiber(0, None), 2 := Fiber(0, None)], map[],
          map[0 := Thread(ThreadContext(0), None, Guest, Nothing)])
  }

  function Inside1(phase: Phase, current: Option<Gid>, received: Received): State {
    State(REGISTRY, map[1 := Fiber(10, Some(ThreadContext(0))), 2 := Fiber(0, None)],
          map[ThreadContext(0) := AfterRun(None, 1, 10)],
          map[0 := Thread(FiberContext(1), current, phase, received)])
  }

  function Inside2(phase: Phase, current: Option<Gid>, received: Received): State {
    State(REGISTRY, map[1 := Fiber(10, Some(ThreadContext(0))), 2 := Fiber(20, Some(FiberContext(1)))],
          map[ThreadContext(0) := AfterRun(None, 1, 10), FiberContext(1) := AfterSwitch(Some(1), 2, 20)],
          map[0 := Thread(FiberContext(2), current, phase, received)])
  }

  function Back1(phase: Phase, current: Option<Gid>, received: Received): State {
    State(REGISTRY, map[1 := Fiber(30, Some(FiberContext(2))), 2 := Fiber(20, Some(FiberContext(1)))],
          map[ThreadContext(0) := AfterRun(None, 1, 10), FiberContext(2) := AfterSwitch(Some(2), 1, 30)],
          map[0 := Thread(FiberContext(1), current, phase, received)])
  }

  lemma RunsFiber1()
    ensures Enabled(Begun(), Run(0, 1, 10)) && Apply(Begun(), Run(0, 1, 10)) == Inside1(Resuming(Start), None, Nothing)
    ensures var s := Inside1(Resuming(Start), None, Nothing);
            Enabled(s, Resume(0)) && Apply(s, Resume(0)) == Inside1(Guest, Some(1), EntryArguments(0, 10))
  {
  }

  lemma SwitchesTo2()
    ensures var s := Inside1(Guest, Some(1), EntryArguments(0, 10));
            Enabled(s, Switch(0, 2, 20)) &&
            Apply(s, Switch(0, 2, 20)) == Inside2(Resuming(Start), Some(1), EntryArguments(0, 10))
    ensures var s := Inside2(Resuming(Start), Some(1), EntryArguments(0, 10));
            Enabled(s, Resume(0)) && Apply(s, Resume(0)) == Inside2(Guest, Some(2), EntryArguments(0, 20))
  {
  }

  lemma SwitchesBack()
    ensures var s := Inside2(Guest, Some(2), EntryArguments(0, 20));
            var k := AfterSwitch(Some(1), 2, 20);
            Enabled(s, Switch(0, 1, 30)) &&
            Apply(s, Switch(0, 1, 30)) == Back1(Resuming(k), Some(2), EntryArguments(0, 20))
    ensures var s := Back1(Resuming(AfterSwitch(Some(1), 2, 20)), Some(2), EntryArguments(0, 20));
            Enabled(s, Resume(0)) && Apply(s, Resume(0)) == Back1(Guest, Some(1), FromSwitch(20))
  {
  }

  function Created(): seq<Step> {
    [Initialize(0, 1, 1, 0), Initialize(0, 2, 2, 0)]
  }

  lemma Creates(s0: State)
    requires s0 == State(map[], map[], map[], map[0 := Thread(ThreadContext(0), None, Guest, Nothing)])
    ensures Init(s0) && Exec(s0, Created()) == Begun()
  {
    var s1 := State(map[1 := 1], map[1 := Fiber(0, None)], map[], s0.threads);
    assert Exec(s0, []) == s0;
    Then(s0, [], s0, Initialize(0, 1, 1, 0), s1);
    Then(s0, [Initialize(0, 1, 1, 0)], s1, Initialize(0, 2, 2, 0), Begun());
    assert [] + [Initialize(0, 1, 1, 0)] == [Initialize(0, 1, 1, 0)];
    assert [Initialize(0, 1, 1, 0)] + [Initialize(0, 2, 2, 0)] == Created();
  }

  /** Two fibers that switch to each other: from here no number of ReturnToThread calls regains the thread. */
  lemma MutualSwitchLosesThread() returns (s0: State, steps: seq<Step>)
    ensures Init(s0) && GuestRuns(Exec(s0, steps), 0) && InRing(Exec(s0, steps), 0, [1, 2], 0)
    ensures forall args :: GuestRuns(Returns(Exec(s0, steps), 0, args), 0) &&
                            Returns(Exec(s0, steps), 0, args).threads[0].running != ThreadContext(0)
  {
    hide Enabled, Apply, Exec, Init;
    s0 := State(map[], map[], map[], map[0 := Thread(ThreadContext(0), None, Guest, Nothing)]);
    Creates(s0);
    RunsFiber1();
    SwitchesTo2();
    SwitchesBack();
    steps := Created();
    Then(s0, steps, Begun(), Run(0, 1, 10), Inside1(Resuming(Start), None, Nothing));
    steps := steps + [Run(0, 1, 10)];
    Then(s0, steps, Inside1(Resuming(Start), None, Nothing), Resume(0), Inside1(Guest, Some(1), EntryArguments(0, 10)));
    steps := steps + [Resume(0)];
    Then(s0, steps, Inside1(Guest, Some(1), EntryArguments(0, 10)), Switch(0, 2, 20),
         Inside2(Resuming(Start), Some(1), EntryArguments(0, 10)));
    steps := steps + [Switch(0, 2, 20)];
    Then(s0, steps, Inside2(Resuming(Start), Some(1), EntryArguments(0, 10)), Resume(0),
         Inside2(Guest, Some(2), EntryArguments(0, 20)));
    steps := steps + [Resume(0)];
    Then(s0, steps, Inside2(Guest, Some(2), EntryArguments(0, 20)), Switch(0, 1, 30),
         Back1(Resuming(AfterSwitch(Some(1), 2, 20)), Some(2), EntryArguments(0, 20)));
    steps := steps + [Switch(0, 1, 30)];
    Then(s0, steps, Back1(Resuming(AfterSwitch(Some(1), 2, 20)), Some(2), EntryArguments(0, 20)), Resume(0),
         Back1(Guest, Some(1), FromSwitch(20)));
    steps := steps + [Resume(0)];
    ClosesRing();
    forall args ensures GuestRuns(Returns(Exec(s0, steps), 0, args), 0) &&
                        Returns(Exec(s0, steps), 0, args).threads[0].running != ThreadContext(0) {
      RingNeverEnds(Exec(s0, steps), 0, [1, 2], 0, args);
    }
  }

  lemma ClosesRing()
    ensures InRing(Back1(Guest, Some(1), FromSwitch(20)), 0, [1, 2], 0)
  {
    var s := Back1(Guest, Some(1), FromSwitch(20));
    assert RingLink(s, [1, 2], 0) && RingLink(s, [1, 2], 1);
    assert Waits(s, FiberContext(2));
    assert IdentityOk(s);
  }

  // ---- A lost result: another thread enters the fiber before its result has been read ----

  /** One fiber and two threads. */
  function Racing(gf: GuestFiber, suspended: map<Context, Continuation>, first: Thread, second: Thread): State {
    State(map[1 := 1], map[1 := gf], suspended, map[0 := first, 1 := second])
  }

  function Idle(t: Tid): Thread { Thread(ThreadContext(t), None, Guest, Nothing) }

  const WAIT0: Continuation := AfterRun(None, 1, 10)
  const WAIT1: Continuation := AfterRun(None, 1, 20)

  function Race0(): State {
    Racing(GuestFiber(0, 0, 0, None, false), map[], Idle(0), Idle(1))
  }

  function Race1(phase: Phase, current: Option<Gid>, received: Received): State {
    Racing(GuestFiber(0, 10, 0, Some(ThreadContext(0)), true), map[ThreadContext(0) := WAIT0],
           Thread(FiberContext(1), current, phase, received), Idle(1))
  }

  /** Thread 0 is about to read the 5 that the fiber returned. */
  function Race2(): State {
    Racing(GuestFiber(0, 10, 5, Some(ThreadContext(0)), true), map[FiberContext(1) := AfterReturn(1)],
           Thread(ThreadContext(0), None, Resuming(WAIT0), EntryArguments(0, 10)), Idle(1))
  }

  function Race3(phase: Phase, current: Option<Gid>, received: Received): State {
    Racing(GuestFiber(0, 20, 5, Some(ThreadContext(1)), true), map[ThreadContext(1) := WAIT1],
           Thread(ThreadContext(0), None, Resuming(WAIT0), EntryArguments(0, 10)),
           Thread(FiberContext(1), current, phase, received))
  }

  function Race4(first: Thread): State {
    Racing(GuestFiber(0, 20, 7, Some(ThreadContext(1)), true), map[FiberContext(1) := AfterReturn(1)],
           first, Thread(ThreadContext(1), None, Resuming(WAIT1), FromReturn(20)))
  }

  lemma FirstThreadRuns()
    ensures Enabled(Race0(), Run(0, 1, 10)) && Apply(Race0(), Run(0, 1, 10)) == Race1(Resuming(Start), None, Nothing)
    ensures var s := Race1(Resuming(Start), None, Nothing);
            Enabled(s, Resume(0)) && Apply(s, Resume(0)) == Race1(Guest, Some(1), EntryArguments(0, 10))
    ensures var s := Race1(Guest, Some(1), EntryArguments(0, 10));
            Enabled(s, ReturnToThread(0, 5)) && Apply(s, ReturnToThread(0, 5)) == Race2()
  {
  }

  lemma SecondThreadRuns()
    ensures Enabled(Race2(), Run(1, 1, 20)) &&
            Apply(Race2(), Run(1, 1, 20)) == Race3(Resuming(AfterReturn(1)), None, Nothing)
    ensures var s := Race3(Resuming(AfterReturn(1)), None, Nothing);
            Enabled(s, Resume(1)) && Apply(s, Resume(1)) == Race3(Guest, Some(1), FromReturn(20))
  {
  }

  lemma SecondThreadReturns()
    ensures var s := Race3(Guest, Some(1), FromReturn(20));
            var waiting := Thread(ThreadContext(0), None, Resuming(WAIT0), EntryArguments(0, 10));
            Enabled(s, ReturnToThread(1, 7)) && Apply(s, ReturnToThread(1, 7)) == Race4(waiting) &&
            Enabled(Race4(waiting), Resume(0)) &&
            Apply(Race4(waiting), Resume(0)) == Race4(Thread(ThreadContext(0), None, Guest, FromRun(7)))
  {
  }

  lemma CreatesOne(s0: State)
    requires s0 == State(map[], map[], map[], map[0 := Idle(0), 1 := Idle(1)])
    ensures Init(s0) && Exec(s0, [Initialize(0, 1, 1, 0)]) == Race0()
  {
    assert Exec(s0, []) == s0;
    Then(s0, [], s0, Initialize(0, 1, 1, 0), Race0());
    assert [] + [Initialize(0, 1, 1, 0)] == [Initialize(0, 1, 1, 0)];
  }

  /** The fiber returns 5 to thread 0's Run, and that Run hands out 7. */
  lemma ResultLost() returns (s0: State, steps: seq<Step>)
    ensures Init(s0) && 4 <= |steps| && steps[3] == ReturnToThread(0, 5) && Exec(s0, steps[..4]) == Race2()
    ensures Race2().threads[0].phase == Resuming(WAIT0) && Race2().fibers[1].argOnReturn == 5
    ensures 0 in Exec(s0, steps).threads &&
            Exec(s0, steps).threads[0] == Thread(ThreadContext(0), None, Guest, FromRun(7))
  {
    hide Enabled, Apply, Exec, Init;
    s0 := State(map[], map[], map[], map[0 := Idle(0), 1 := Idle(1)]);
    CreatesOne(s0);
    FirstThreadRuns();
    SecondThreadRuns();
    SecondThreadReturns();
    var waiting := Thread(ThreadContext(0), None, Resuming(WAIT0), EntryArguments(0, 10));
    var first := [Initialize(0, 1, 1, 0)];
    Then(s0, first, Race0(), Run(0, 1, 10), Race1(Resuming(Start), None, Nothing));
    first := first + [Run(0, 1, 10)];
    Then(s0, first, Race1(Resuming(Start), None, Nothing), Resume(0), Race1(Guest, Some(1), EntryArguments(0, 10)));
    first := first + [Resume(0)];
    Then(s0, first, Race1(Guest, Some(1), EntryArguments(0, 10)), ReturnToThread(0, 5), Race2());
    first := first + [ReturnToThread(0, 5)];
    steps := first + [Run(1, 1, 20)];
    Then(s0, first, Race2(), Run(1, 1, 20), Race3(Resuming(AfterReturn(1)), None, Nothing));
    Then(s0, steps, Race3(Resuming(AfterReturn(1)), None, Nothing), Resume(1), Race3(Guest, Some(1), FromReturn(20)));
    steps := steps + [Resume(1)];
    Then(s0, steps, Race3(Guest, Some(1), FromReturn(20)), ReturnToThread(1, 7), Race4(waiting));
    steps := steps + [ReturnToThread(1, 7)];
    Then(s0, steps, Race4(waiting), Resume(0), Race4(Thread(ThreadContext(0), None, Guest, FromRun(7))));
    steps := steps + [Resume(0)];
    assert steps[..4] == first;
  }
}
