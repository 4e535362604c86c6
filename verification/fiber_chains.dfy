/** The chain of one thread, whatever the other threads do: what returns on it reach, and what becomes of a chain
    into which another thread cuts. */
module FiberChains {

  import opened Options
  import opened Fibers
  import opened FiberStacks

  /** Contexts of which each waits for the next; the last one runs on thread t. */
  ghost predicate Linked(s: State, t: Tid, chain: seq<Context>) {
    && |chain| > 0 && t in s.threads && s.threads[t].running == chain[|chain| - 1]
    && (forall i, j | 0 <= i < j < |chain| :: chain[i] != chain[j])
    && (forall i | 0 < i < |chain| :: chain[i].FiberContext? && WaitsOn(s, chain[i - 1], chain[i].g))
  }

  /** What returns on a chain leave alone: the ways back, and that a context outside the chain is not suspended. */
  ghost predicate Undisturbed(s: State, r: State, chain: seq<Context>) {
    && r.fibers.Keys == s.fibers.Keys && (forall f <- s.fibers :: r.fibers[f].resumeTo == s.fibers[f].resumeTo)
    && (forall c | c !in chain && c !in s.suspended :: c !in r.suspended)
  }

  lemma LinkLeaves(s: State, t: Tid, chain: seq<Context>)
    requires IdentityOk(s) && GuestRuns(s, t) && Linked(s, t, chain) && |chain| > 1
    ensures chain[|chain| - 1].FiberContext?
    ensures Leaving(s, map[t := chain], t, chain[|chain| - 1].g, AfterReturn(chain[|chain| - 1].g), chain[|chain| - 2])
    ensures s.threads[t].current == Some(chain[|chain| - 1].g)
    ensures ResumeTarget(s, t, chain[|chain| - 1].g) == chain[|chain| - 2]
  {
    var n := |chain| - 1;
    GuestIdentity(s, t);
    assert WaitsOn(s, chain[n - 1], chain[n].g);
    assert chain[n - 1] != chain[n];
  }

  /** One return removes the last link. */
  lemma LinkPops(s: State, t: Tid, chain: seq<Context>, arg: int)
    requires IdentityOk(s) && GuestRuns(s, t) && Linked(s, t, chain) && |chain| > 1
    ensures var r := ReturnOnce(s, t, arg);
            IdentityOk(r) && GuestRuns(r, t) && Linked(r, t, chain[..|chain| - 1]) && Undisturbed(s, r, chain)
  {
    hide IdentityOk, WaitsOn, Left, CanSwitchTo, SwitchTo;
    var n := |chain| - 1;
    var g, back := chain[n].g, chain[n - 1];
    var one := map[t := chain];
    LinkLeaves(s, t, chain);
    LeaveEffect(s, one, t, g, arg, AfterReturn(g), back);
    LeaveKeepsIdentity(s, one, t, g, arg, AfterReturn(g), back);
    var left := Left(s, t, g, arg, AfterReturn(g), back);
    LeftIsReturn(s, t, g, arg, back);
    forall i | 0 < i < n
      ensures WaitsOn(left, chain[i - 1], chain[i].g)
    {
      LeaveKeepsWaits(s, one, t, g, arg, AfterReturn(g), back, chain[i - 1], chain[i].g);
    }
    BackIsLive(s, back, g);
    var r := ReturnOnce(s, t, arg);
    IdentityKept(left, Resume(t));
    ResumedRuns(left, t);
    forall i | 0 < i < n
      ensures WaitsOn(r, chain[i - 1], chain[i].g)
    {
      ResumeKeepsWaits(left, t, chain[i - 1], chain[i].g);
    }
  }

  lemma LeftIsReturn(s: State, t: Tid, g: Gid, arg: int, back: Context)
    requires GuestRuns(s, t) && s.threads[t].current == Some(g) && g in s.fibers
    requires ResumeTarget(s, t, g) == back && CanSwitchTo(s, back)
    ensures Enabled(s, ReturnToThread(t, arg)) &&
            Apply(s, ReturnToThread(t, arg)) == Left(s, t, g, arg, AfterReturn(g), back)
  {
  }

  lemma BackIsLive(s: State, back: Context, g: Gid)
    requires WaitsOn(s, back, g)
    ensures Targets(s.suspended[back], g) && g in s.fibers
  {
  }

  lemma ResumeKeepsWaits(s: State, t: Tid, c: Context, f: Gid)
    requires Enabled(s, Resume(t)) && WaitsOn(s, c, f)
    ensures WaitsOn(Apply(s, Resume(t)), c, f)
  {
  }

  lemma {:induction false} LinkReturns(s: State, t: Tid, chain: seq<Context>, args: seq<int>)
    requires IdentityOk(s) && GuestRuns(s, t) && Linked(s, t, chain) && |args| < |chain|
    ensures var r := Returns(s, t, args);
            IdentityOk(r) && GuestRuns(r, t) && Linked(r, t, chain[..|chain| - |args|]) && Undisturbed(s, r, chain)
    decreases |args|
  {
    hide ReturnOnce, IdentityOk, WaitsOn;
    if |args| == 0 {
      assert chain[..|chain|] == chain;
    } else {
      var shorter := chain[..|chain| - 1];
      LinkPops(s, t, chain, args[0]);
      LinkReturns(ReturnOnce(s, t, args[0]), t, shorter, args[1..]);
      assert shorter[..|shorter| - |args[1..]|] == chain[..|chain| - |args|];
    }
  }

  // ---- Entering a fiber ----

  /** The code that waits in the entered fiber can go on. */
  lemma EnteredGoesOn(s: State, stacks: Stacks, t: Tid, g: Gid, arg: int, k: Continuation)
    requires Stacked(s, stacks) && CanEnter(s, t, g, arg, k)
    ensures var s' := Entered(s, t, g, arg, k);
            Enabled(s', Resume(t)) && IdentityOk(s') && s'.threads[t].running == FiberContext(g)
  {
    hide IdentityOk, Distinct, Chain, ReadOk, WaitsOn;
    EnterKeepsIdentity(s, t, g, arg, k);
    var c := FiberContext(g);
    if c in s.suspended && (s.suspended[c].AfterRun? || s.suspended[c].AfterSwitch?) {
      var u, i :| Occupies(stacks, u, i, c);
      WaiterTarget(s, stacks, u, i, c);
    }
  }

  /** A suspended context of a stack waits for the fiber above it, which exists. */
  lemma WaiterTarget(s: State, stacks: Stacks, u: Tid, i: nat, c: Context)
    requires Stacked(s, stacks) && Occupies(stacks, u, i, c) && c in s.suspended
    ensures i < |stacks[u]| - 1 && stacks[u][i + 1].FiberContext?
    ensures WaitsOn(s, c, stacks[u][i + 1].g) && Targets(s.suspended[c], stacks[u][i + 1].g) &&
            stacks[u][i + 1].g in s.fibers
  {
    assert Chain(s, u, stacks[u]);
    assert i < |stacks[u]| - 1;
    assert WaitsOn(s, stacks[u][i], stacks[u][i + 1].g);
  }

  lemma StackLinked(s: State, stacks: Stacks, u: Tid)
    requires Stacked(s, stacks) && u in stacks
    ensures Linked(s, u, stacks[u])
  {
    assert Chain(s, u, stacks[u]);
    forall i, j | 0 <= i < j < |stacks[u]|
      ensures stacks[u][i] != stacks[u][j]
    {
      assert Occupies(stacks, u, i, stacks[u][i]) && Occupies(stacks, u, j, stacks[u][j]);
    }
  }

  /** The state once the entered fiber goes on. */
  function AfterEntry(s: State, t: Tid, g: Gid, arg: int, k: Continuation): State
    requires CanEnter(s, t, g, arg, k)
  {
    var e := Entered(s, t, g, arg, k);
    if Enabled(e, Resume(t)) then Apply(e, Resume(t)) else e
  }

  /** The entered fiber was not the running one. */
  lemma EntersAnother(s: State, stacks: Stacks, t: Tid, g: Gid, arg: int, k: Continuation)
    requires Stacked(s, stacks) && CanEnter(s, t, g, arg, k)
    ensures s.threads[t].running != FiberContext(g) && s.threads[t].running !in s.suspended
  {
    RunningCreated(s, stacks, t);
  }

  lemma RunningCreated(s: State, stacks: Stacks, t: Tid)
    requires Stacked(s, stacks) && t in s.threads
    ensures var c := s.threads[t].running;
            c !in s.suspended && (c.FiberContext? ==> c.g in s.fibers && s.fibers[c.g].created)
  {
    assert Chain(s, t, stacks[t]);
    var n := |stacks[t]| - 1;
    if s.threads[t].running.FiberContext? {
      assert WaitsOn(s, stacks[t][n - 1], s.threads[t].running.g);
    }
  }

  /** What entering does, and that the entered fiber goes on. */
  lemma EntryEffect(s: State, stacks: Stacks, t: Tid, g: Gid, arg: int, k: Continuation)
    requires Stacked(s, stacks) && CanEnter(s, t, g, arg, k)
    ensures var r := AfterEntry(s, t, g, arg, k);
            && Enabled(Entered(s, t, g, arg, k), Resume(t)) && IdentityOk(r)
            && r.threads.Keys == s.threads.Keys && GuestRuns(r, t) && r.threads[t].running == FiberContext(g)
            && (forall u <- s.threads | u != t :: r.threads[u] == s.threads[u])
            && WaitsOn(r, s.threads[t].running, g) && FiberContext(g) !in r.suspended
            && (forall f <- s.fibers | f != g :: f in r.fibers && r.fibers[f] == s.fibers[f])
  {
    hide Entered, WaitsOn, IdentityOk, Prepared, CanSwitchTo, SwitchTo, IdleOk, ReadOk, Chain, Distinct;
    var e := Entered(s, t, g, arg, k);
    EnteredGoesOn(s, stacks, t, g, arg, k);
    EntersAnother(s, stacks, t, g, arg, k);
    EnterStartsWait(s, t, g, arg, k);
    IdentityKept(e, Resume(t));
    ResumedRuns(e, t);
    ResumeKeepsWaits(e, t, s.threads[t].running, g);
  }

  /** Contexts that wait for each other, the entered fiber not among them, still do. */
  lemma EntryKeepsWaits(s: State, stacks: Stacks, t: Tid, g: Gid, arg: int, k: Continuation, c: Context, f: Gid)
    requires Stacked(s, stacks) && CanEnter(s, t, g, arg, k) && WaitsOn(s, c, f) && f != g && c != FiberContext(g)
    ensures WaitsOn(AfterEntry(s, t, g, arg, k), c, f)
  {
    hide Entered, WaitsOn, IdentityOk, Prepared, CanSwitchTo, SwitchTo, IdleOk, ReadOk, Chain, Distinct;
    EntersAnother(s, stacks, t, g, arg, k);
    EnterKeepsWaits(s, t, g, arg, k, c, f);
    EnteredGoesOn(s, stacks, t, g, arg, k);
    ResumeKeepsWaits(Entered(s, t, g, arg, k), t, c, f);
  }

  /** A part of a stack down from its running context, without the entered fiber, keeps its links. */
  lemma EntryKeepsLinks(s: State, stacks: Stacks, t: Tid, g: Gid, arg: int, k: Continuation, u: Tid, from: nat)
    requires Stacked(s, stacks) && CanEnter(s, t, g, arg, k) && u in stacks && from < |stacks[u]|
    requires FiberContext(g) !in stacks[u][from..]
    ensures var chain := stacks[u][from..];
            Linked(AfterEntry(s, t, g, arg, k), u, if u == t then chain + [FiberContext(g)] else chain)
  {
    hide AfterEntry, WaitsOn, IdentityOk, Stacked;
    var stack, chain, r := stacks[u], stacks[u][from..], AfterEntry(s, t, g, arg, k);
    StackLinked(s, stacks, u);
    EntryEffect(s, stacks, t, g, arg, k);
    forall i | 0 < i < |chain|
      ensures chain[i].FiberContext? && WaitsOn(r, chain[i - 1], chain[i].g)
    {
      assert chain[i] == stack[from + i] && chain[i - 1] == stack[from + i - 1];
      EntryKeepsWaits(s, stacks, t, g, arg, k, chain[i - 1], chain[i].g);
    }
  }

  // ---- When the thread is regained ----

  /** After those returns, guest code runs in the thread's own context. */
  predicate Regained(s: State, t: Tid, args: seq<int>) {
    GuestRuns(Returns(s, t, args), t) && Returns(s, t, args).threads[t].running == ThreadContext(t)
  }

  /** When a Run or Switch enters a fiber, whoever waits in it or for it, returning can bring the thread back to its own
      context if and only if the fiber was not already on the thread's stack. */
  lemma ThreadRegainedIff(s: State, stacks: Stacks, t: Tid, g: Gid, arg: int, k: Continuation)
    requires Stacked(s, stacks) && CanEnter(s, t, g, arg, k)
    ensures Enabled(Entered(s, t, g, arg, k), Resume(t))
    ensures (exists args :: Regained(Apply(Entered(s, t, g, arg, k), Resume(t)), t, args)) <==>
              FiberContext(g) !in stacks[t]
  {
    hide Entered, Returns, IdentityOk, Distinct, IdleOk, ReadOk, Prepared, SwitchTo, CanSwitchTo, WaitsOn, Linked;
    EntryEffect(s, stacks, t, g, arg, k);
    var r := AfterEntry(s, t, g, arg, k);
    if FiberContext(g) in stacks[t] {
      var i :| 0 <= i < |stacks[t]| && stacks[t][i] == FiberContext(g);
      RingForms(s, stacks, t, g, arg, k, i);
      forall args ensures !Regained(r, t, args) {
        RingNeverEnds(r, t, FibersOf(stacks[t][i..]), 0, args);
      }
    } else {
      assert Chain(s, t, stacks[t]);
      var args := seq(|stacks[t]|, _ => 0);
      EntryKeepsLinks(s, stacks, t, g, arg, k, t, 0);
      LinkReturns(r, t, stacks[t][0..] + [FiberContext(g)], args);
      OneLink(Returns(r, t, args), t, stacks[t][0..] + [FiberContext(g)]);
      assert Regained(r, t, args);
    }
  }

  lemma OneLink(s: State, t: Tid, chain: seq<Context>)
    requires |chain| > 0 && Linked(s, t, chain[..1])
    ensures t in s.threads && s.threads[t].running == chain[0]
  {
  }

  /** The thread into whose chain another thread cuts, by entering a fiber that waits there, comes back only as far as
      the fiber above: from there it cannot return as long as the entered fiber runs on the other thread. */
  lemma CutChainSticks(s: State, stacks: Stacks, t: Tid, g: Gid, arg: int, k: Continuation, u: Tid, i: nat,
                       args: seq<int>, value: int)
    requires Stacked(s, stacks) && CanEnter(s, t, g, arg, k)
    requires u != t && u in stacks && GuestRuns(s, u) && Occupies(stacks, u, i, FiberContext(g)) &&
             |args| == |stacks[u]| - 2 - i
    ensures var r := Returns(AfterEntry(s, t, g, arg, k), u, args);
            GuestRuns(r, u) && r.threads[u].running == stacks[u][i + 1] && !Enabled(r, ReturnToThread(u, value))
  {
    hide AfterEntry, Returns, IdentityOk, Stacked, WaitsOn, CanEnter;
    var c, above := FiberContext(g), stacks[u][i + 1..];
    EntryEffect(s, stacks, t, g, arg, k);
    CutSuspended(s, stacks, t, g, arg, k, u, i);
    WaiterTarget(s, stacks, u, i, c);
    NotAbove(s, stacks, u, i, c);
    EntryKeepsLinks(s, stacks, t, g, arg, k, u, i + 1);
    var r0 := AfterEntry(s, t, g, arg, k);
    LinkReturns(r0, u, above, args);
    var r := Returns(r0, u, args);
    OneLink(r, u, above);
    GuestIdentity(r, u);
    BackOf(s, c, above[0].g);
    EntryKeepsWay(s, stacks, t, g, arg, k, above[0].g);
  }

  lemma NotAbove(s: State, stacks: Stacks, u: Tid, i: nat, c: Context)
    requires Stacked(s, stacks) && Occupies(stacks, u, i, c)
    ensures c !in stacks[u][i + 1..]
  {
    StackLinked(s, stacks, u);
  }

  lemma BackOf(s: State, c: Context, f: Gid)
    requires WaitsOn(s, c, f)
    ensures f in s.fibers && s.fibers[f].resumeTo == Some(c)
  {
  }

  lemma EntryKeepsWay(s: State, stacks: Stacks, t: Tid, g: Gid, arg: int, k: Continuation, f: Gid)
    requires Stacked(s, stacks) && CanEnter(s, t, g, arg, k) && f in s.fibers && f != g
    ensures f in AfterEntry(s, t, g, arg, k).fibers && AfterEntry(s, t, g, arg, k).fibers[f] == s.fibers[f]
  {
    EntryEffect(s, stacks, t, g, arg, k);
  }

  /** A fiber on another thread's stack can be entered only while it waits there. */
  lemma CutSuspended(s: State, stacks: Stacks, t: Tid, g: Gid, arg: int, k: Continuation, u: Tid, i: nat)
    requires Stacked(s, stacks) && CanEnter(s, t, g, arg, k) && u in stacks && Occupies(stacks, u, i, FiberContext(g))
    ensures FiberContext(g) in s.suspended
  {
    assert Chain(s, u, stacks[u]);
    assert i > 0 && WaitsOn(s, stacks[u][i - 1], g);
  }
}
