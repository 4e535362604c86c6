/** The calls as they update the process's records in place, each up to its SwitchToFiber, and the code after it. */
module FiberCalls {

  import opened Options
  import opened Fibers

  class Process {
    var registry: map<Handle, Gid>
    var fibers: map<Gid, GuestFiber>
    var suspended: map<Context, Continuation>
    var threads: map<Tid, Thread>

    ghost function Now(): State
      reads this
    {
      State(registry, fibers, suspended, threads)
    }

    constructor (ids: set<Tid>)
      ensures Init(Now()) && threads.Keys == ids
    {
      registry, fibers, suspended := map[], map[], map[];
      threads := map t | t in ids :: Thread(ThreadContext(t), None, Guest, Nothing);
    }

    method SetCurrent(t: Tid, current: Option<Gid>)
      requires t in threads
      modifies this`threads
      ensures threads == old(threads)[t := old(threads)[t].(current := current)]
    {
      threads := threads[t := threads[t].(current := current)];
    }

    /** The host's SwitchToFiber: the caller stays behind with k, and target goes on. */
    method SwitchToFiber(t: Tid, k: Continuation, target: Context)
      requires t in threads && CanSwitchTo(Now(), target)
      modifies this`suspended, this`threads
      ensures Now() == SwitchTo(old(Now()), t, old(threads)[t].current, k, target)
    {
      var me, next := threads[t], suspended[target];
      suspended := (map c | c in suspended && c != target :: suspended[c])[me.running := k];
      threads := threads[t := me.(running := target, phase := Resuming(next))];
    }

    /** Both Run and Switch: note the argument and the way back, and make the host fiber the first time. */
    method Prepare(t: Tid, g: Gid, arg: int)
      requires t in threads && g in fibers
      modifies this`fibers, this`suspended
      ensures Now() == Prepared(old(Now()), t, g, arg)
    {
      fibers := fibers[g := fibers[g].(argOnRun := arg)];
      fibers := fibers[g := fibers[g].(resumeTo := Some(threads[t].running))];
      if !fibers[g].created {
        suspended := suspended[FiberContext(g) := Start];
        fibers := fibers[g := fibers[g].(created := true)];
      }
    }

    method Initialize(t: Tid, handle: Handle, g: Gid, arg: int)
      requires Fibers.Enabled(Now(), Fibers.Initialize(t, handle, g, arg))
      modifies this`registry, this`fibers
      ensures Now() == Apply(old(Now()), Fibers.Initialize(t, handle, g, arg))
    {
      var gf := GuestFiber(0, 0, 0, None, false);
      gf := gf.(argOnInitialize := arg);
      registry := registry[handle := g];
      fibers := fibers[g := gf];
    }

    /** The context of a fiber that has one goes with the fiber. */
    method Finalize(t: Tid, handle: Handle) returns (found: bool)
      requires HandlesApart(Now()) && Fibers.Enabled(Now(), Fibers.Finalize(t, handle))
      modifies this`registry, this`fibers, this`suspended
      ensures Now() == Apply(old(Now()), Fibers.Finalize(t, handle)) && found == (handle in old(registry))
    {
      if handle !in registry {
        return false;
      }
      var g := registry[handle];
      registry := registry - {handle};
      suspended := suspended - {FiberContext(g)};
      fibers := fibers - {g};
      return true;
    }

    method Run(t: Tid, handle: Handle, arg: int) returns (found: bool)
      requires Fibers.Enabled(Now(), Fibers.Run(t, handle, arg))
      modifies this
      ensures Now() == Apply(old(Now()), Fibers.Run(t, handle, arg)) && found == (handle in old(registry))
    {
      if handle !in registry {
        return false;
      }
      var g := registry[handle];
      Prepare(t, g, arg);
      var previous := threads[t].current;
      SwitchToFiber(t, AfterRun(previous, g, arg), FiberContext(g));
      return true;
    }

    method Switch(t: Tid, handle: Handle, arg: int) returns (found: bool)
      requires Fibers.Enabled(Now(), Fibers.Switch(t, handle, arg))
      modifies this
      ensures Now() == Apply(old(Now()), Fibers.Switch(t, handle, arg)) && found == (handle in old(registry))
    {
      if handle !in registry {
        return false;
      }
      var g := registry[handle];
      Prepare(t, g, arg);
      var previous := threads[t].current;
      SwitchToFiber(t, AfterSwitch(previous, g, arg), FiberContext(g));
      return true;
    }

    method ReturnToThread(t: Tid, arg: int) returns (inFiber: bool)
      requires Fibers.Enabled(Now(), Fibers.ReturnToThread(t, arg))
      modifies this
      ensures Now() == Apply(old(Now()), Fibers.ReturnToThread(t, arg)) && inFiber == old(threads)[t].current.Some?
    {
      if threads[t].current.None? {
        return false;
      }
      var g := threads[t].current.value;
      fibers := fibers[g := fibers[g].(argOnReturn := arg)];
      var back := match fibers[g].resumeTo case Some(c) => c case None => ThreadContext(t);
      SetCurrent(t, None);
      SwitchToFiber(t, AfterReturn(g), back);
      return true;
    }

    /** FiberProc after the entry function. */
    method EndEntry(t: Tid)
      requires Fibers.Enabled(Now(), EntryReturns(t))
      modifies this
      ensures Now() == Apply(old(Now()), EntryReturns(t))
    {
      var g := threads[t].running.g;
      var back := match fibers[g].resumeTo case Some(c) => c case None => ThreadContext(t);
      SetCurrent(t, None);
      SwitchToFiber(t, Finished, back);
    }

    /** The code after SwitchToFiber: `t_current` is repaired, and the call's result read. */
    method GoOn(t: Tid)
      requires Fibers.Enabled(Now(), Resume(t))
      modifies this`threads
      ensures Now() == Apply(old(Now()), Resume(t))
    {
      var me := threads[t];
      match me.phase.k {
        case Start =>
          if me.running.FiberContext? && me.running.g in fibers {
            var gf := fibers[me.running.g];
            SetCurrent(t, Some(me.running.g));
            threads := threads[t := threads[t].(phase := Guest,
                received := EntryArguments(gf.argOnInitialize, gf.argOnRun))];
          }
        case AfterRun(previous, target, _) =>
          SetCurrent(t, previous);
          threads := threads[t := threads[t].(phase := Guest, received := FromRun(fibers[target].argOnReturn))];
        case AfterSwitch(previous, target, _) =>
          SetCurrent(t, previous);
          threads := threads[t := threads[t].(phase := Guest, received := FromSwitch(fibers[target].argOnRun))];
        case AfterReturn(self) =>
          if self in fibers {
            SetCurrent(t, Some(self));
            threads := threads[t := threads[t].(phase := Guest, received := FromReturn(fibers[self].argOnRun))];
          }
        case Finished =>
      }
    }
  }
}
