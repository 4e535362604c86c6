/** The flag object: each method is one critical section under the flag's mutex. */
module EventFlagObject {
  import opened EventPatterns

  datatype Outcome = Ok | TimedOut | Canceled | Invalid

  /** The protected fields of a flag, as a value; the pattern is its set of events. */
  datatype Flag = Flag(pattern: iset<bv64>, waiters: int, canceled: bool, deleted: bool)

  ghost function NewFlag(initial: iset<bv64>): Flag {
    Flag(initial, 0, false, false)
  }

  ghost function AfterSet(f: Flag, bits: iset<bv64>): Flag {
    f.(pattern := f.pattern + bits)
  }

  ghost function AfterClear(f: Flag, kept: iset<bv64>): Flag {
    f.(pattern := f.pattern * kept)
  }

  ghost function PollOutcome(f: Flag, bits: iset<bv64>, mode: Mode): Outcome {
    if Fulfilled(f.pattern, bits, mode) then Ok else TimedOut
  }

  ghost function AfterPoll(f: Flag, bits: iset<bv64>, mode: Mode): Flag {
    if Fulfilled(f.pattern, bits, mode) then f.(pattern := Remaining(f.pattern, bits, mode)) else f
  }

  /** The predicate a waiter hands to the condition variable. */
  ghost predicate Ready(f: Flag, bits: iset<bv64>, mode: Mode) {
    f.deleted || f.canceled || Fulfilled(f.pattern, bits, mode)
  }

  ghost function AfterEnter(f: Flag): Flag {
    f.(waiters := f.waiters + 1)
  }

  /** The outcome of a wait whose last test of the predicate gave `ok`. */
  ghost function LeaveOutcome(f: Flag, ok: bool): Outcome {
    if f.deleted || f.canceled then Canceled
    else if !ok then TimedOut
    else Ok
  }

  ghost function AfterLeave(f: Flag, bits: iset<bv64>, mode: Mode, ok: bool): Flag {
    var g := f.(waiters := f.waiters - 1);
    if LeaveOutcome(f, ok) == Ok then g.(pattern := Remaining(f.pattern, bits, mode)) else g
  }

  ghost function AfterCancel(f: Flag, pattern: iset<bv64>): Flag {
    f.(pattern := pattern, canceled := true)
  }

  class FlagObject {
    var pattern: bv64
    var waiters: int
    var canceled: bool
    var deleted: bool

    ghost function View(): Flag
      reads this
    {
      Flag(Events(pattern), waiters, canceled, deleted)
    }

    constructor (initial: bv64)
      ensures View() == NewFlag(Events(initial))
    {
      pattern, waiters, canceled, deleted := initial, 0, false, false;
    }

    method Set(bits: bv64)
      modifies this
      ensures View() == AfterSet(old(View()), Events(bits))
    {
      UnionMeaning(pattern, bits);
      pattern := pattern | bits;
    }

    method Clear(bits: bv64)
      modifies this
      ensures View() == AfterClear(old(View()), Events(bits))
    {
      MeetMeaning(pattern, bits);
      pattern := pattern & bits;
    }

    method ApplyClear(bits: bv64, mode: bv32)
      modifies this`pattern
      ensures Events(pattern) == Remaining(old(Events(pattern)), Events(bits), ModeOf(mode))
    {
      ClearedMeaning(pattern, bits, mode);
      if mode & WAIT_CLEAR_ALL != 0 {
        pattern := 0;
      } else if mode & WAIT_CLEAR_PAT != 0 {
        pattern := pattern & !bits;
      }
    }

    method Poll(bits: bv64, mode: bv32) returns (outcome: Outcome, result: bv64)
      modifies this
      ensures result == old(pattern)
      ensures outcome == PollOutcome(old(View()), Events(bits), ModeOf(mode))
      ensures View() == AfterPoll(old(View()), Events(bits), ModeOf(mode))
    {
      SatisfiedMeaning(pattern, bits, mode);
      if !Satisfied(pattern, bits, mode) {
        return TimedOut, pattern;
      }
      result := pattern;
      ApplyClear(bits, mode);
      outcome := Ok;
    }

    /** The first critical section of a wait, up to the first test of the predicate. */
    method EnterWait(bits: bv64, mode: bv32) returns (ready: bool)
      modifies this
      ensures View() == AfterEnter(old(View()))
      ensures ready == Ready(View(), Events(bits), ModeOf(mode))
    {
      waiters := waiters + 1;
      ready := TestWait(bits, mode);
    }

    /** A waiter's test of its predicate. */
    method TestWait(bits: bv64, mode: bv32) returns (ready: bool)
      ensures ready == Ready(View(), Events(bits), ModeOf(mode))
    {
      SatisfiedMeaning(pattern, bits, mode);
      ready := deleted || canceled || Satisfied(pattern, bits, mode);
    }

    /** What a wait does once the condition variable has returned `ok`. */
    method LeaveWait(bits: bv64, mode: bv32, ok: bool) returns (outcome: Outcome, result: bv64)
      modifies this
      ensures result == old(pattern)
      ensures outcome == LeaveOutcome(old(View()), ok)
      ensures View() == AfterLeave(old(View()), Events(bits), ModeOf(mode), ok)
    {
      waiters := waiters - 1;
      result := pattern;
      if deleted || canceled {
        return Canceled, result;
      }
      if !ok {
        return TimedOut, result;
      }
      ApplyClear(bits, mode);
      outcome := Ok;
    }

    method Cancel(setPattern: bv64) returns (numWaiting: int)
      modifies this
      ensures numWaiting == old(waiters)
      ensures View() == AfterCancel(old(View()), Events(setPattern))
    {
      numWaiting := waiters;
      pattern := setPattern;
      canceled := true;
    }

    method ResetCanceled()
      modifies this
      ensures View() == old(View()).(canceled := false)
    {
      canceled := false;
    }

    method MarkDeleted()
      modifies this
      ensures View() == old(View()).(deleted := true)
    {
      deleted := true;
    }
  }
}
