/** What every resumed call and entry function receives, told from the steps of the run alone. */
module FiberEntries {

  import opened Options
  import opened Fibers
  import opened FiberStacks

  // ---- What has been said about a fiber ----

  /** A Run or Switch that finds fiber g. */
  predicate Enters(s: State, step: Step, g: Gid) {
    (step.Run? || step.Switch?) && step.handle in s.registry && s.registry[step.handle] == g
  }

  /** A ReturnToThread by a thread whose `t_current` is fiber g. */
  predicate ReturnsFrom(s: State, step: Step, g: Gid) {
    step.ReturnToThread? && step.t in s.threads && s.threads[step.t].current == Some(g)
  }

  predicate Makes(step: Step, g: Gid) {
    step.Initialize? && step.g == g
  }

  /** The argument of the last Initialize of fiber g. */
  ghost function MadeWith(s0: State, steps: seq<Step>, g: Gid): int
    decreases |steps|
  {
    if |steps| == 0 then 0
    else
      var before, last := Exec(s0, steps[..|steps| - 1]), steps[|steps| - 1];
      if Enabled(before, last) && Makes(last, g) then last.arg
      else MadeWith(s0, steps[..|steps| - 1], g)
  }

  /** The argument of the last Run or Switch that entered fiber g since it was made, or 0. */
  ghost function SentTo(s0: State, steps: seq<Step>, g: Gid): int
    decreases |steps|
  {
    if |steps| == 0 then 0
    else
      var before, last := Exec(s0, steps[..|steps| - 1]), steps[|steps| - 1];
      if Enabled(before, last) && Enters(before, last, g) then last.arg
      else if Enabled(before, last) && Makes(last, g) then 0
      else SentTo(s0, steps[..|steps| - 1], g)
  }

  /** The argument of the last ReturnToThread from fiber g since it was made, or 0. */
  ghost function ReturnedBy(s0: State, steps: seq<Step>, g: Gid): int
    decreases |steps|
  {
    if |steps| == 0 then 0
    else
      var before, last := Exec(s0, steps[..|steps| - 1]), steps[|steps| - 1];
      if Enabled(before, last) && ReturnsFrom(before, last, g) then last.arg
      else if Enabled(before, last) && Makes(last, g) then 0
      else ReturnedBy(s0, steps[..|steps| - 1], g)
  }

  /** What one step does to the record of fiber g. */
  lemma RecordMoves(s: State, step: Step, g: Gid)
    requires Enabled(s, step) && g in Apply(s, step).fibers
    ensures var after := Apply(s, step).fibers[g];
            if Makes(step, g) then
              after.argOnInitialize == step.arg && after.argOnRun == 0 && after.argOnReturn == 0
            else
              && g in s.fibers && after.argOnInitialize == s.fibers[g].argOnInitialize
              && after.argOnRun == (if Enters(s, step, g) then step.arg else s.fibers[g].argOnRun)
              && after.argOnReturn == (if ReturnsFrom(s, step, g) then step.arg else s.fibers[g].argOnReturn)
  {
  }

  /** In every run, a fiber's record holds what the steps have said about it. */
  lemma {:induction false} RecordsReplay(s0: State, steps: seq<Step>, g: Gid)
    requires Init(s0) && g in Exec(s0, steps).fibers
    ensures var gf := Exec(s0, steps).fibers[g];
            && gf.argOnInitialize == MadeWith(s0, steps, g) && gf.argOnRun == SentTo(s0, steps, g)
            && gf.argOnReturn == ReturnedBy(s0, steps, g)
    decreases |steps|
  {
    hide Apply, Enabled, Enters, ReturnsFrom;
    var before, last := steps[..|steps| - 1], steps[|steps| - 1];
    if Enabled(Exec(s0, before), last) {
      RecordMoves(Exec(s0, before), last, g);
      OneKind(Exec(s0, before), last, g);
      if !Makes(last, g) {
        RecordsReplay(s0, before, g);
      }
    } else {
      RecordsReplay(s0, before, g);
    }
  }

  lemma OneKind(s: State, step: Step, g: Gid)
    ensures Enters(s, step, g) ==> step.Run? || step.Switch?
    ensures ReturnsFrom(s, step, g) ==> step.ReturnToThread?
  {
  }

  /** What a thread should receive when it goes on: an entry function, the argument of its fiber's Initialize and that
      of the last Run or Switch to the fiber; Run, the last argument that the fiber has returned; Switch, and a
      ReturnToThread that goes on, the last that was sent to the fiber. */
  ghost function Told(s0: State, steps: seq<Step>, running: Context, k: Continuation): Received {
    match k
    case Start =>
      if running.FiberContext? then EntryArguments(MadeWith(s0, steps, running.g), SentTo(s0, steps, running.g))
      else Nothing
    case AfterRun(_, g, _) => FromRun(ReturnedBy(s0, steps, g))
    case AfterSwitch(_, g, _) => FromSwitch(SentTo(s0, steps, g))
    case AfterReturn(g) => FromReturn(SentTo(s0, steps, g))
    case Finished => Nothing
  }

  /** In every run of any threads and fibers, with or without discipline, a thread that goes on receives what it should,
      an entry function runs on its fiber's context, and a finished one never goes on. */
  lemma ResumeReceives(s0: State, steps: seq<Step>, t: Tid)
    requires Init(s0) && Enabled(Exec(s0, steps), Resume(t))
    ensures var s := Exec(s0, steps);
            var th := s.threads[t];
            && Apply(s, Resume(t)).threads[t].received == Told(s0, steps, th.running, th.phase.k)
            && (th.phase.k.Start? ==> th.running.FiberContext?) && !th.phase.k.Finished?
  {
    hide MadeWith, SentTo, ReturnedBy, Exec;
    var s := Exec(s0, steps);
    CurrentIsRunning(s0, steps);
    assert ThreadOk(s, s.threads[t]);
    match s.threads[t].phase.k
    case Start => RecordsReplay(s0, steps, s.threads[t].running.g);
    case AfterRun(_, g, _) => RecordsReplay(s0, steps, g);
    case AfterSwitch(_, g, _) => RecordsReplay(s0, steps, g);
    case AfterReturn(g) => RecordsReplay(s0, steps, g);
    case Finished =>
  }

  // ---- The entry arguments ----

  /** Step i is the Initialize that made fiber g with argument a, and g has existed ever since. */
  ghost predicate MadeAt(s0: State, steps: seq<Step>, i: nat, g: Gid, a: int) {
    && i < |steps| && Enabled(Exec(s0, steps[..i]), steps[i])
    && steps[i].Initialize? && steps[i].g == g && steps[i].arg == a
    && forall j | i < j <= |steps| :: g in Exec(s0, steps[..j]).fibers
  }

  lemma NotMadeAgain(s: State, step: Step, g: Gid)
    requires Enabled(s, step) && g in s.fibers
    ensures !Makes(step, g)
  {
  }

  lemma {:induction false} MadeOnce(s0: State, steps: seq<Step>, i: nat, g: Gid, a: int)
    requires MadeAt(s0, steps, i, g, a)
    ensures g in Exec(s0, steps).fibers && MadeWith(s0, steps, g) == a
    decreases |steps|
  {
    hide Apply, Enabled;
    assert steps[..|steps|] == steps;
    var before, last := steps[..|steps| - 1], steps[|steps| - 1];
    assert forall j | 0 <= j <= |before| :: before[..j] == steps[..j];
    if i < |before| {
      MadeOnce(s0, before, i, g, a);
      if Enabled(Exec(s0, before), last) {
        NotMadeAgain(Exec(s0, before), last, g);
      }
    }
  }

  /** Every fiber that exists was made by some Initialize of the run. */
  lemma {:induction false} EveryFiberWasMade(s0: State, steps: seq<Step>, g: Gid) returns (i: nat, a: int)
    requires Init(s0) && g in Exec(s0, steps).fibers
    ensures MadeAt(s0, steps, i, g, a)
    decreases |steps|
  {
    hide Apply, Enabled;
    assert steps[..|steps|] == steps;
    var before, last := steps[..|steps| - 1], steps[|steps| - 1];
    assert forall j | 0 <= j <= |before| :: before[..j] == steps[..j];
    if Enabled(Exec(s0, before), last) {
      RecordMoves(Exec(s0, before), last, g);
      if Makes(last, g) {
        return |before|, last.arg;
      }
    }
    i, a := EveryFiberWasMade(s0, before, g);
    forall j | i < j <= |steps| ensures g in Exec(s0, steps[..j]).fibers {
      assert j < |steps| ==> steps[..j] == before[..j];
    }
  }

  /** As long as a fiber exists, whichever thread starts it, its entry function is called with the argument of the
      Initialize that made it and that of the Run or Switch that waits below it. */
  lemma EntryArgumentsDelivered(s0: State, steps: seq<Step>, stacks: Stacks, t: Tid, i: nat, g: Gid, a: int)
    requires Init(s0) && Nests(s0, steps, stacks) && MadeAt(s0, steps, i, g, a)
    requires var s := Exec(s0, steps);
             && Enabled(s, Resume(t)) && s.threads[t].phase.k.Start? && s.threads[t].running == FiberContext(g)
    ensures var s := Exec(s0, steps);
            && t in stacks && |stacks[t]| > 1
            && var below := stacks[t][|stacks[t]| - 2];
               && below in s.suspended && Targets(s.suspended[below], g)
               && Apply(s, Resume(t)).threads[t].received == EntryArguments(a, s.suspended[below].sent)
  {
    hide MadeAt, MadeWith, Nests, Exec;
    var s := Exec(s0, steps);
    NestingHolds(s0, steps, stacks);
    assert Chain(s, t, stacks[t]);
    assert WaitsOn(s, stacks[t][|stacks[t]| - 2], g);
    ResumeReceives(s0, steps, t);
    MadeOnce(s0, steps, i, g, a);
    EntryArgumentDelivered(s, stacks, t);
  }

  // ---- The end of a fiber ----

  /** Finalize forgets the handle, its fiber and the fiber's context, and nothing else; from then on Run and Switch of
      that handle find no fiber. */
  lemma FinalizeForgets(s: State, t: Tid, u: Tid, handle: Handle, arg: int)
    requires IdentityOk(s) && Enabled(s, Finalize(t, handle)) && handle in s.registry
    ensures var s', g := Apply(s, Finalize(t, handle)), s.registry[handle];
            && handle !in s'.registry && s'.fibers.Keys == s.fibers.Keys - {g} && s'.threads == s.threads
            && s'.suspended.Keys == s.suspended.Keys - {FiberContext(g)}
            && (forall f <- s'.fibers :: s'.fibers[f] == s.fibers[f])
            && (forall c <- s'.suspended :: s'.suspended[c] == s.suspended[c])
            && (forall h <- s.registry | s.registry[h] != g :: h in s'.registry && s'.registry[h] == s.registry[h])
            && (GuestRuns(s, u) ==>
                  && Enabled(s', Run(u, handle, arg)) && Apply(s', Run(u, handle, arg)) == s'
                  && Enabled(s', Switch(u, handle, arg)) && Apply(s', Switch(u, handle, arg)) == s')
  {
  }

  ghost predicate IsFinished(s: State, g: Gid) {
    && FiberContext(g) in s.suspended && s.suspended[FiberContext(g)].Finished?
    && g in s.fibers && s.fibers[g].created
  }

  /** After its entry function has returned, a fiber is never entered again: it stays finished until it is finalized. */
  lemma FinishedStays(s: State, step: Step, g: Gid)
    requires IdentityOk(s) && IsFinished(s, g) && Enabled(s, step)
    requires forall u <- s.threads :: s.threads[u].running != FiberContext(g)
    ensures !Enters(s, step, g)
    ensures var s' := Apply(s, step);
            if step.Finalize? && step.handle in s.registry && s.registry[step.handle] == g then g !in s'.fibers
            else IsFinished(s', g) && forall u <- s'.threads :: s'.threads[u].running != FiberContext(g)
  {
    hide IdentityOk;
    if (step.Run? || step.Switch?) && step.handle in s.registry {
      assert CanSwitchTo(Prepared(s, step.t, s.registry[step.handle], step.arg), FiberContext(s.registry[step.handle]));
    }
  }
}
