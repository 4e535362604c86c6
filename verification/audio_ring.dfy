/** The ring of packets between Output and the device.

    The device takes packets in the order in which they are written, plays them one after the
    other, and after each one marks its header done and sets the port's event.  It runs at
    the same time as Output, which holds the port's mutex throughout. */
module AudioRing {

  const BUFFERS: nat := 8

  type Packet = seq<int>

  /** user: the header has been queued at some time; done: the WHDR_DONE flag. */
  datatype Header = Header(user: bool, done: bool)

  datatype Result = Accepted | WriteFailed | Dropped

  /** The packets in the buffers that a queue names. */
  function Contents(buf: seq<Packet>, queue: seq<nat>): seq<Packet>
    requires forall k | 0 <= k < |queue| :: queue[k] < |buf|
  {
    if |queue| == 0 then [] else [buf[queue[0]]] + Contents(buf, queue[1..])
  }

  lemma {:induction false} ContentsUntouched(buf: seq<Packet>, queue: seq<nat>, i: nat, p: Packet)
    requires (forall k | 0 <= k < |queue| :: queue[k] < |buf|) && i < |buf| && i !in queue
    ensures Contents(buf[i := p], queue) == Contents(buf, queue)
  {
    if |queue| > 0 {
      ContentsUntouched(buf, queue[1..], i, p);
    }
  }

  lemma {:induction false} ContentsAppended(buf: seq<Packet>, queue: seq<nat>, i: nat)
    requires (forall k | 0 <= k < |queue| :: queue[k] < |buf|) && i < |buf|
    ensures Contents(buf, queue + [i]) == Contents(buf, queue) + [buf[i]]
  {
    if |queue| > 0 {
      ContentsAppended(buf, queue[1..], i);
      assert (queue + [i])[1..] == queue[1..] + [i];
    } else {
      assert queue + [i] == [i];
    }
  }

  /** What the device may do to the headers and to its own queue by running for a while. */
  predicate Ran(h0: seq<Header>, q0: seq<nat>, h1: seq<Header>, q1: seq<nat>) {
    && |q1| <= |q0| && q1 == q0[|q0| - |q1|..] && |h0| == |h1|
    && forall i | 0 <= i < |h0| :: h1[i] == if i in q0 && i !in q1 then Header(true, true) else h0[i]
  }

  lemma RanTwice(h0: seq<Header>, q0: seq<nat>, h1: seq<Header>, q1: seq<nat>, h2: seq<Header>, q2: seq<nat>)
    requires Ran(h0, q0, h1, q1) && Ran(h1, q1, h2, q2)
    ensures Ran(h0, q0, h2, q2)
  {
    assert forall i | i in q2 :: i in q1;
    assert forall i | i in q1 :: i in q0;
  }

  predicate SameUsers(h0: seq<Header>, h1: seq<Header>) {
    |h0| == |h1| && forall i | 0 <= i < |h0| :: h1[i].user == h0[i].user
  }

  /** Playing on uses no new header. */
  lemma RunningUsesNothing(h0: seq<Header>, q0: seq<nat>, h1: seq<Header>, q1: seq<nat>)
    requires Ran(h0, q0, h1, q1) && forall k | 0 <= k < |q0| :: q0[k] < |h0| && h0[q0[k]].user
    ensures SameUsers(h0, h1)
  {
  }

  /** The indices of a queue, each once. */
  predicate Queued(q: seq<nat>) {
    && (forall k | 0 <= k < |q| :: q[k] < BUFFERS)
    && (forall j, k | 0 <= j < k < |q| :: q[j] != q[k])
  }

  /** A header that will never be marked done: it waits for a device that does not hold it. */
  predicate StuckHeader(hdr: seq<Header>, queue: seq<nat>, i: nat) {
    i < |hdr| && hdr[i].user && !hdr[i].done && i !in queue
  }

  /** Playing on marks headers done, which makes none of them stuck and frees none that is. */
  lemma RunningSticksNothing(h0: seq<Header>, q0: seq<nat>, h1: seq<Header>, q1: seq<nat>)
    requires Ran(h0, q0, h1, q1)
    ensures forall i :: StuckHeader(h1, q1, i) <==> StuckHeader(h0, q0, i)
  {
    assert forall i | i in q1 :: i in q0;
  }

  /** Clearing a done flag changes no other header. */
  lemma FillingSticks(h0: seq<Header>, q: seq<nat>, h1: seq<Header>, n: nat)
    requires n < |h0| && (h0[n].user ==> h0[n].done) && h1 == h0[n := Header(h0[n].user, false)]
    ensures !StuckHeader(h0, q, n) && forall i | i != n :: StuckHeader(h1, q, i) <==> StuckHeader(h0, q, i)
  {
  }

  lemma NotPlayed(h0: seq<Header>, q0: seq<nat>, h1: seq<Header>, q1: seq<nat>, i: nat)
    requires Ran(h0, q0, h1, q1) && i < |h0| && i !in q0
    ensures i !in q1 && h1[i] == h0[i]
  {
  }

  // ---- The wait for a header ----

  /** What the device does while a packet is output: how many packets it completes, if it holds that many, before each
      test of the done flag and during each wait for its event, and later while the packet is converted, or while a
      dropped packet is paced. */
  datatype Device = Device(before: nat -> nat, during: nat -> nat, filling: nat, pacing: nat)

  function Least(a: nat, b: nat): nat { if a <= b then a else b }

  /** How many of the q packets that it held the device has completed when n waits are over. */
  function Waited(d: Device, q: nat, n: nat): nat
    decreases n, 0
  {
    if n == 0 then 0 else Least(q, Tested(d, q, n - 1) + d.during(n - 1))
  }

  /** The same when the done flag is tested after n waits. */
  function Tested(d: Device, q: nat, n: nat): nat
    decreases n, 1
  {
    Least(q, Waited(d, q, n) + d.before(n))
  }

  /** No packet is completed from the end of the wait before to the end of wait n, which also finds no event left from
      before Output. */
  predicate Silent(d: Device, q: nat, signaled: bool, n: nat) {
    Waited(d, q, n + 1) == Waited(d, q, n) && !(n == 0 && signaled)
  }

  /** How many of the first n waits time out. */
  function Silences(d: Device, q: nat, signaled: bool, n: nat): nat {
    if n == 0 then 0 else Silences(d, q, signaled, n - 1) + if Silent(d, q, signaled, n - 1) then 1 else 0
  }

  /** Header i is found done after n waits: it was done before, or is one of those that the device has completed. */
  predicate FoundDone(d: Device, hdr: seq<Header>, queue: seq<nat>, i: nat, n: nat)
    requires i < |hdr|
  {
    hdr[i].done || i in queue[..Least(|queue|, Tested(d, |queue|, n))]
  }

  /** The header is found done before ten waits have timed out. */
  ghost predicate InTime(d: Device, hdr: seq<Header>, queue: seq<nat>, signaled: bool, i: nat)
    requires i < |hdr|
  {
    exists n: nat :: FoundDone(d, hdr, queue, i, n) && Silences(d, |queue|, signaled, n) < 10
  }

  /** Ten waits have timed out, and the header was never found done before. */
  ghost predicate TooLate(d: Device, hdr: seq<Header>, queue: seq<nat>, signaled: bool, i: nat, n: nat)
    requires i < |hdr|
  {
    Silences(d, |queue|, signaled, n) == 10 && forall k: nat | k < n :: !FoundDone(d, hdr, queue, i, k)
  }

  /** One more wait and the test after it. */
  lemma OneMoreWait(d: Device, q: nat, signaled: bool, n: nat)
    ensures Waited(d, q, n) <= Tested(d, q, n) <= Waited(d, q, n + 1) <= q
    ensures Tested(d, q, 0) == Least(q, d.before(0)) && Waited(d, q, 0) == 0 && Silences(d, q, signaled, 0) == 0
    ensures var rest := q - Tested(d, q, n); Waited(d, q, n + 1) == Tested(d, q, n) + Least(rest, d.during(n))
    ensures var rest := q - Waited(d, q, n + 1);
            Tested(d, q, n + 1) == Waited(d, q, n + 1) + Least(rest, d.before(n + 1))
    ensures Silences(d, q, signaled, n + 1) == Silences(d, q, signaled, n) +
              if Waited(d, q, n + 1) == Waited(d, q, n) && !(n == 0 && signaled) then 1 else 0
  {
  }

  lemma {:induction false} SilencesGrow(d: Device, q: nat, signaled: bool, m: nat, n: nat)
    requires m <= n
    ensures Silences(d, q, signaled, m) <= Silences(d, q, signaled, n)
    decreases n
  {
    if m < n {
      SilencesGrow(d, q, signaled, m, n - 1);
    }
  }

  /** Every wait times out, or uses up a completion or the event left from before. */
  lemma {:induction false} EveryWaitCounts(d: Device, q: nat, signaled: bool, n: nat)
    ensures n <= Silences(d, q, signaled, n) + Waited(d, q, n) + 1 && Waited(d, q, n) <= q
  {
    if n > 0 {
      EveryWaitCounts(d, q, signaled, n - 1);
    }
  }

  /** The first number of waits of which as many as k have timed out. */
  lemma {:induction false} TimesOutOften(d: Device, q: nat, signaled: bool, k: nat, n: nat) returns (m: nat)
    requires k <= Silences(d, q, signaled, n)
    ensures m <= n && Silences(d, q, signaled, m) == k
    decreases n
  {
    if Silences(d, q, signaled, n) == k {
      return n;
    }
    m := TimesOutOften(d, q, signaled, k, n - 1);
  }

  /** Whatever the device does, a header is either found done before the tenth timeout, or ten waits time out before it
      is found done. */
  lemma InTimeOrTooLate(d: Device, hdr: seq<Header>, queue: seq<nat>, signaled: bool, i: nat)
    requires i < |hdr|
    ensures InTime(d, hdr, queue, signaled, i) <==> !exists n: nat :: TooLate(d, hdr, queue, signaled, i, n)
  {
    hide FoundDone, Silences;
    if n: nat, k: nat :| FoundDone(d, hdr, queue, i, n) && Silences(d, |queue|, signaled, n) < 10 &&
                         TooLate(d, hdr, queue, signaled, i, k) {
      assert k <= n;
      SilencesGrow(d, |queue|, signaled, k, n);
    }
    if !InTime(d, hdr, queue, signaled, i) {
      EveryWaitCounts(d, |queue|, signaled, |queue| + 11);
      var m := TimesOutOften(d, |queue|, signaled, 10, |queue| + 11);
      var n := FirstTimesOut(d, |queue|, signaled, m);
      forall k: nat | k < n ensures !FoundDone(d, hdr, queue, i, k) {
        assert Silences(d, |queue|, signaled, k) < 10;
      }
      assert TooLate(d, hdr, queue, signaled, i, n);
    }
  }

  /** The first number of waits of which ten have timed out. */
  lemma {:induction false} FirstTimesOut(d: Device, q: nat, signaled: bool, n: nat) returns (m: nat)
    requires Silences(d, q, signaled, n) == 10
    ensures m <= n && Silences(d, q, signaled, m) == 10
    ensures forall k: nat | k < m :: Silences(d, q, signaled, k) < 10
    decreases n
  {
    if Silences(d, q, signaled, n - 1) == 10 {
      m := FirstTimesOut(d, q, signaled, n - 1);
    } else {
      m := n;
      forall k: nat | k < m ensures Silences(d, q, signaled, k) < 10 {
        SilencesGrow(d, q, signaled, k, n - 1);
      }
    }
  }

  /** Within ten waits, a header is always in time. */
  lemma TenWaitsAreInTime(d: Device, hdr: seq<Header>, queue: seq<nat>, signaled: bool, i: nat, n: nat)
    requires i < |hdr| && n < 10 && FoundDone(d, hdr, queue, i, n)
    ensures InTime(d, hdr, queue, signaled, i)
  {
    SilencesBelow(d, |queue|, signaled, n);
  }

  lemma {:induction false} SilencesBelow(d: Device, q: nat, signaled: bool, n: nat)
    ensures Silences(d, q, signaled, n) <= n
  {
    if n > 0 {
      SilencesBelow(d, q, signaled, n - 1);
    }
  }

  /** A header that the device does not hold is found done only if it was done before. */
  lemma NotHeld(d: Device, hdr: seq<Header>, queue: seq<nat>, signaled: bool, i: nat)
    requires i < |hdr|
    ensures hdr[i].done ==> InTime(d, hdr, queue, signaled, i)
    ensures StuckHeader(hdr, queue, i) ==> !InTime(d, hdr, queue, signaled, i)
  {
    if hdr[i].done {
      assert FoundDone(d, hdr, queue, i, 0) && Silences(d, |queue|, signaled, 0) == 0;
    }
  }

  /** The done flags after the device has completed c packets. */
  lemma RanDone(h0: seq<Header>, q0: seq<nat>, h1: seq<Header>, q1: seq<nat>, c: nat, i: nat)
    requires Ran(h0, q0, h1, q1) && Queued(q0) && c <= |q0| && |q1| == |q0| - c && i < |h0|
    ensures h1[i].done <==> h0[i].done || i in q0[..c]
  {
    assert q0 == q0[..c] + q1;
    assert i in q0 <==> i in q0[..c] || i in q1;
  }

  /** The device completes up to n of its packets. */
  ghost predicate Completes(n: nat, h0: seq<Header>, q0: seq<nat>, h1: seq<Header>, q1: seq<nat>) {
    Ran(h0, q0, h1, q1) && |q1| == |q0| - Least(|q0|, n)
  }

  /** Where the wait for header i is when its done flag is tested after n waits, from h0, q0 and s0 on. */
  ghost predicate Waiting(d: Device, h0: seq<Header>, q0: seq<nat>, s0: bool, h: seq<Header>, q: seq<nat>,
                          signaled: bool, i: nat, n: nat)
  {
    && Ran(h0, q0, h, q) && Queued(q0) && i < |h0| && |q| == |q0| - Tested(d, |q0|, n)
    && (signaled <==> Tested(d, |q0|, n) > Waited(d, |q0|, n) || (n == 0 && s0))
    && (h[i].done <==> FoundDone(d, h0, q0, i, n))
    && forall k: nat | k < n :: !FoundDone(d, h0, q0, i, k)
  }

  lemma StartsWaiting(d: Device, h0: seq<Header>, q0: seq<nat>, s0: bool, h: seq<Header>, q: seq<nat>, signaled: bool,
                      i: nat)
    requires Completes(d.before(0), h0, q0, h, q) && Queued(q0) && i < |h0| && signaled == (s0 || |q| < |q0|)
    ensures Waiting(d, h0, q0, s0, h, q, signaled, i, 0) && Silences(d, |q0|, s0, 0) == 0
  {
    hide Queued, Ran;
    OneMoreWait(d, |q0|, s0, 0);
    RanDone(h0, q0, h, q, Tested(d, |q0|, 0), i);
  }

  /** The wait after a test that fails: it times out, counts, and leaves the header as it was, or finds the event set.
      */
  lemma WaitEnds(d: Device, h0: seq<Header>, q0: seq<nat>, s0: bool, h1: seq<Header>, q1: seq<nat>, s1: bool,
                 h2: seq<Header>, q2: seq<nat>, signaled: bool, i: nat, n: nat)
    requires Waiting(d, h0, q0, s0, h1, q1, s1, i, n) && !h1[i].done
    requires Completes(d.during(n), h1, q1, h2, q2) && signaled == (s1 || |q2| < |q1|)
    ensures Ran(h0, q0, h2, q2) && |q2| == |q0| - Waited(d, |q0|, n + 1)
    ensures Silences(d, |q0|, s0, n + 1) == Silences(d, |q0|, s0, n) + if signaled then 0 else 1
    ensures forall k: nat | k < n + 1 :: !FoundDone(d, h0, q0, i, k)
    ensures !signaled && Silences(d, |q0|, s0, n + 1) == 10 ==>
              !h2[i].done && TooLate(d, h0, q0, s0, i, n + 1) && !InTime(d, h0, q0, s0, i)
  {
    hide Queued, Ran, FoundDone, InTime, Tested, Waited, Silences;
    OneMoreWait(d, |q0|, s0, n);
    RanTwice(h0, q0, h1, q1, h2, q2);
    assert !signaled ==> h2 == h1 by { NothingRan(h1, q1, h2, q2); }
    InTimeOrTooLate(d, h0, q0, s0, i);
    assert Silences(d, |q0|, s0, n + 1) == 10 ==> TooLate(d, h0, q0, s0, i, n + 1);
  }

  lemma NothingRan(h0: seq<Header>, q0: seq<nat>, h1: seq<Header>, q1: seq<nat>)
    requires Ran(h0, q0, h1, q1)
    ensures |q1| == |q0| ==> h1 == h0 && q1 == q0
  {
  }

  lemma TestsAgain(d: Device, h0: seq<Header>, q0: seq<nat>, s0: bool, h1: seq<Header>, q1: seq<nat>, s1: bool,
                   h2: seq<Header>, q2: seq<nat>, h: seq<Header>, q: seq<nat>, signaled: bool, i: nat, n: nat)
    requires Waiting(d, h0, q0, s0, h1, q1, s1, i, n) && !h1[i].done
    requires Ran(h0, q0, h2, q2) && |q2| == |q0| - Waited(d, |q0|, n + 1)
    requires Completes(d.before(n + 1), h2, q2, h, q) && signaled == (|q| < |q2|)
    ensures Waiting(d, h0, q0, s0, h, q, signaled, i, n + 1)
  {
    hide Queued, Ran, Tested, Waited, Silences;
    OneMoreWait(d, |q0|, s0, n);
    RanTwice(h0, q0, h2, q2, h, q);
    RanDone(h0, q0, h, q, Tested(d, |q0|, n + 1), i);
  }

  lemma IsInTime(d: Device, h0: seq<Header>, q0: seq<nat>, s0: bool, h: seq<Header>, q: seq<nat>, signaled: bool,
                 i: nat, n: nat)
    requires Waiting(d, h0, q0, s0, h, q, signaled, i, n) && h[i].done && Silences(d, |q0|, s0, n) < 10
    ensures Ran(h0, q0, h, q) && |q| == |q0| - Tested(d, |q0|, n)
    ensures forall k: nat | k < n :: !FoundDone(d, h0, q0, i, k)
    ensures InTime(d, h0, q0, s0, i) && !TooLate(d, h0, q0, s0, i, n)
  {
    hide FoundDone, Silences;
  }

  class Port {
    var hdr: seq<Header>
    var buf: seq<Packet>
    var next: nat

    /** The device: the headers it holds, oldest first, and the event it sets. */
    var queue: seq<nat>
    var signaled: bool

    /** What the device has accepted and what it has played since the port was opened. */
    ghost var accepted: seq<Packet>
    ghost var played: seq<Packet>

    ghost predicate Valid()
      reads this
    {
      && |hdr| == BUFFERS && |buf| == BUFFERS && next < BUFFERS && Queued(queue)
      && (forall k | 0 <= k < |queue| :: hdr[queue[k]] == Header(true, false))
      && accepted == played + Contents(buf, queue)
    }

    predicate Stuck(i: nat)
      reads this
    {
      StuckHeader(hdr, queue, i)
    }

    constructor ()
      ensures Valid() && next == 0 && accepted == [] && played == []
      ensures NoneStuck(hdr, queue) && forall i | 0 <= i < BUFFERS :: !hdr[i].user
    {
      hdr := seq(BUFFERS, _ => Header(false, false));
      buf := seq(BUFFERS, _ => []);
      next, queue, signaled, accepted, played := 0, [], false, [], [];
    }

    /** The device finishes the packet it is playing. */
    method Complete()
      requires Valid() && |queue| > 0
      modifies this`queue, this`signaled, this`played, this`hdr
      ensures Valid() && signaled
      ensures queue == old(queue)[1..] && played == old(played) + [buf[old(queue)[0]]]
      ensures hdr == old(hdr)[old(queue)[0] := Header(true, true)]
      ensures Ran(old(hdr), old(queue), hdr, queue)
    {
      var i := queue[0];
      played := played + [buf[i]];
      hdr := hdr[i := hdr[i].(done := true)];
      queue := queue[1..];
      signaled := true;
    }

    /** Up to n completions, at any point of another thread's code. */
    method DeviceRuns(n: nat)
      requires Valid()
      modifies this`queue, this`signaled, this`played, this`hdr
      ensures Valid() && old(played) <= played
      ensures Ran(old(hdr), old(queue), hdr, queue) && SameUsers(old(hdr), hdr)
      ensures Completes(n, old(hdr), old(queue), hdr, queue)
      ensures signaled == (old(signaled) || |queue| < |old(queue)|)
    {
      var k := 0;
      RunningNotAtAll(hdr, queue);
      while k < n && |queue| > 0
        invariant Valid() && old(played) <= played && k <= n
        invariant |queue| == |old(queue)| - k
        invariant Ran(old(hdr), old(queue), hdr, queue)
        invariant signaled == (old(signaled) || |queue| < |old(queue)|)
      {
        ghost var h1, q1 := hdr, queue;
        Complete();
        RanTwice(old(hdr), old(queue), h1, q1, hdr, queue);
        k := k + 1;
      }
      RunningUsesNothing(old(hdr), old(queue), hdr, queue);
    }

    /** The wait for the header whose turn it is, in passes of 50 ms.  Every pass uses up one of ten timeouts, a
        completion, or the event left by an earlier completion, so the loop ends. */
    method WaitForHeader(device: Device) returns (ready: bool, ghost waits: nat)
      requires Valid()
      modifies this`queue, this`signaled, this`played, this`hdr
      ensures Valid() && old(played) <= played
      ensures Ran(old(hdr), old(queue), hdr, queue)
      ensures ready <==> hdr[next].done
      // It succeeds exactly when the header is found done before the tenth timeout, and goes on waiting until then.
      ensures ready <==> InTime(device, old(hdr), old(queue), old(signaled), next)
      ensures !ready <==> TooLate(device, old(hdr), old(queue), old(signaled), next, waits)
      ensures forall k: nat | k < waits :: !FoundDone(device, old(hdr), old(queue), next, k)
      ensures |queue| == |old(queue)| - (if ready then Tested(device, |old(queue)|, waits)
                                         else Waited(device, |old(queue)|, waits))
    {
      hide Queued, Contents, FoundDone, Waited, Tested, Silences, Ran, InTime, TooLate, Waiting, Completes;
      ghost var h0, q0, s0 := hdr, queue, signaled;
      var waited, passes := 0, 0;
      DeviceRuns(device.before(0));
      StartsWaiting(device, h0, q0, s0, hdr, queue, signaled, next);
      while !hdr[next].done
        invariant Valid() && old(played) <= played
        invariant waited == 50 * Silences(device, |q0|, s0, passes) && waited < 500
        invariant Waiting(device, h0, q0, s0, hdr, queue, signaled, next, passes)
        decreases 500 - waited + 100 * |queue| + (if signaled then 50 else 0)
      {
        ghost var h1, q1, s1 := hdr, queue, signaled;
        DeviceRuns(device.during(passes));
        ghost var h2, q2 := hdr, queue;
        WaitEnds(device, h0, q0, s0, h1, q1, s1, h2, q2, signaled, next, passes);
        passes := passes + 1;
        if signaled {
          signaled := false;
        } else {
          waited := waited + 50;
          if waited >= 500 {
            return false, passes;
          }
        }
        DeviceRuns(device.before(passes));
        TestsAgain(device, h0, q0, s0, h1, q1, s1, h2, q2, hdr, queue, signaled, next, passes - 1);
      }
      IsInTime(device, h0, q0, s0, hdr, queue, signaled, next, passes);
      return true, passes;
    }

    /** Waits, if it must, until the device no longer holds the buffer whose turn it is. */
    method Claim(device: Device) returns (ready: bool)
      requires Valid()
      modifies this`queue, this`signaled, this`played, this`hdr
      ensures Valid() && old(played) <= played
      ensures Ran(old(hdr), old(queue), hdr, queue) && SameUsers(old(hdr), hdr)
      ensures ready <==> !old(hdr)[next].user || InTime(device, old(hdr), old(queue), old(signaled), next)
      ensures ready ==> next !in queue && (hdr[next].user ==> hdr[next].done)
      ensures ready <==> !hdr[next].user || hdr[next].done
    {
      hide InTime, TooLate, FoundDone, Tested, Waited;
      RunningNotAtAll(hdr, queue);
      if hdr[next].user {
        ghost var waits;
        ready, waits := WaitForHeader(device);
        RunningUsesNothing(old(hdr), old(queue), hdr, queue);
      } else {
        ready := true;
      }
    }

    /** Converts the packet into its buffer, which the device does not hold. */
    method Fill(converted: Packet)
      requires Valid() && next !in queue
      modifies this`buf, this`hdr
      ensures Valid() && buf == old(buf)[next := converted]
      ensures hdr == old(hdr)[next := Header(old(hdr)[next].user, false)]
    {
      ContentsUntouched(buf, queue, next, converted);
      buf := buf[next := converted];
      hdr := hdr[next := hdr[next].(done := false)];
    }

    /** Hands the buffer to the device, which accepts it or not, and moves on. */
    method Write(accepts: bool, device: Device) returns (r: Result)
      requires Valid() && next !in queue && !hdr[next].done
      modifies this
      ensures Valid() && r == (if accepts then Accepted else WriteFailed) && buf == old(buf) && old(played) <= played
      ensures next == (old(next) + 1) % BUFFERS
      ensures SameUsers(if r == Accepted then old(hdr)[old(next) := Header(true, false)] else old(hdr), hdr)
      ensures accepted == if r == Accepted then old(accepted) + [buf[old(next)]] else old(accepted)
      ensures forall i | 0 <= i < BUFFERS && i != old(next) ::
                StuckHeader(hdr, queue, i) <==> StuckHeader(old(hdr), old(queue), i)
      ensures StuckHeader(hdr, queue, old(next)) <==> r == WriteFailed && old(hdr)[old(next)].user
    {
      DeviceRuns(device.filling);
      RunningSticksNothing(old(hdr), old(queue), hdr, queue);
      RunningUsesNothing(old(hdr), old(queue), hdr, queue);
      NotPlayed(old(hdr), old(queue), hdr, queue, next);
      if accepts {
        Enqueue();
        r := Accepted;
      } else {
        r := WriteFailed;
      }
      next := (next + 1) % BUFFERS;
    }

    method Enqueue()
      requires Valid() && next !in queue && !hdr[next].done
      modifies this`hdr, this`queue, this`accepted
      ensures Valid() && accepted == old(accepted) + [buf[next]] && queue == old(queue) + [next]
      ensures hdr == old(hdr)[next := Header(true, false)]
    {
      ContentsAppended(buf, queue, next);
      hdr := hdr[next := hdr[next].(user := true)];
      queue := queue + [next];
      accepted := accepted + [buf[next]];
    }

    /** One packet.  `converted` is what the conversion makes of the guest's samples; `accepts` is the device's answer
        if the packet comes to be written, and `device` what it completes meanwhile. */
    method Output(converted: Packet, accepts: bool, device: Device) returns (r: Result)
      requires Valid()
      modifies this
      ensures Valid()
      // A dropped packet changes nothing but what the device completes meanwhile.
      ensures r == Dropped ==> next == old(next) && accepted == old(accepted) && buf == old(buf)
      ensures r == Dropped ==> Ran(old(hdr), old(queue), hdr, queue)
      // A packet is dropped exactly when its header was used before and ten waits for it time out before it is found
      // done; without a wait nothing is dropped, and what is not dropped has the device's answer.
      ensures r == Dropped <==> old(hdr)[old(next)].user &&
                                exists n: nat :: TooLate(device, old(hdr), old(queue), old(signaled), old(next), n)
      ensures old(!hdr[next].user || hdr[next].done) ==> r != Dropped
      ensures r != Dropped ==> r == if accepts then Accepted else WriteFailed
      // A packet that reaches the device is the next one it accepts, with these samples.
      ensures r == Accepted ==> accepted == old(accepted) + [converted]
      ensures r == WriteFailed ==> accepted == old(accepted)
      ensures r != Dropped ==> next == (old(next) + 1) % BUFFERS && buf == old(buf)[old(next) := converted]
      ensures old(played) <= played
      // Headers get stuck exactly when the write of a reused header fails; then they stay stuck,
      // and a stuck header at the head of the ring drops the packet.
      ensures SticksAs(old(hdr), old(queue), hdr, queue, old(next), r)
      ensures old(Stuck(next)) ==> r == Dropped
      // Exactly the accepted writes use their headers.
      ensures SameUsers(if r == Accepted then old(hdr)[old(next) := Header(true, false)] else old(hdr), hdr)
    {
      hide Contents, Queued, StuckHeader, InTime, TooLate;
      InTimeOrTooLate(device, hdr, queue, signaled, next);
      NotHeld(device, hdr, queue, signaled, next);
      var ready := Claim(device);
      RunningSticksNothing(old(hdr), old(queue), hdr, queue);
      ghost var h1, q1 := hdr, queue;
      if !ready {
        // The device goes on during the pacing sleep.
        DeviceRuns(device.pacing);
        RanTwice(old(hdr), old(queue), h1, q1, hdr, queue);
        RunningSticksNothing(h1, q1, hdr, queue);
        return Dropped;
      }
      Fill(converted);
      FillingSticks(h1, q1, hdr, next);
      r := Write(accepts, device);
    }

    /** Of the packets output after header i got stuck, no more get through than there are headers before it; from then
        on every one is dropped.  Without failed writes no header ever gets stuck. */
    method OutputAll(packets: seq<Packet>, accepts: seq<bool>, devices: nat -> Device) returns (results: seq<Result>)
      requires Valid() && |accepts| == |packets|
      modifies this
      ensures Valid() && |results| == |packets|
      ensures StayStuck(old(hdr), old(queue), hdr, queue)
      ensures Budget(old(hdr), old(queue), old(next), next, results)
      ensures old(Stuck(next)) ==> accepted == old(accepted) && forall k | 0 <= k < |results| :: results[k] == Dropped
      ensures old(accepted) <= accepted && old(played) <= played
      ensures NoneStuck(old(hdr), old(queue)) && WriteFailed !in results ==> NoneStuck(hdr, queue)
    {
      hide StuckHeader, Budget, StayStuck, NoneStuck, SticksAs, SameUsers;
      results := [];
      BudgetStarts(hdr, queue, next);
      StaysAtFirst(hdr, queue);
      while |results| < |packets|
        invariant Valid() && |results| <= |packets|
        invariant StayStuck(old(hdr), old(queue), hdr, queue)
        invariant Budget(old(hdr), old(queue), old(next), next, results)
        invariant old(Stuck(next)) ==> next == old(next)
        invariant old(Stuck(next)) ==>
                    accepted == old(accepted) && forall k | 0 <= k < |results| :: results[k] == Dropped
        invariant old(accepted) <= accepted && old(played) <= played
        invariant NoneStuck(old(hdr), old(queue)) && WriteFailed !in results ==> NoneStuck(hdr, queue)
      {
        ghost var before, was := results, next;
        ghost var h1, q1 := hdr, queue;
        var r := Output(packets[|results|], accepts[|results|], devices(|results|));
        StickGoes(old(hdr), old(queue), h1, q1, hdr, queue, was, r);
        BudgetGoes(old(hdr), old(queue), h1, q1, old(next), was, next, results, r);
        results := results + [r];
        assert WriteFailed in results <==> WriteFailed in before || r == WriteFailed;
      }
    }

    /** The device plays everything that it holds. */
    method PlayAll()
      requires Valid()
      modifies this`queue, this`signaled, this`played, this`hdr
      ensures Valid() && queue == [] && played == accepted
      ensures SameUsers(old(hdr), hdr) && (NoneStuck(old(hdr), old(queue)) ==> NoneStuck(hdr, queue))
    {
      RunningNotAtAll(hdr, queue);
      while |queue| > 0
        invariant Valid() && Ran(old(hdr), old(queue), hdr, queue)
      {
        ghost var h1, q1 := hdr, queue;
        Complete();
        RanTwice(old(hdr), old(queue), h1, q1, hdr, queue);
      }
      RunningSticksNothing(old(hdr), old(queue), hdr, queue);
      RunningUsesNothing(old(hdr), old(queue), hdr, queue);
    }
  }

  /** How many headers have their turn before header i. */
  function Before(next: nat, i: nat): nat
    requires next < BUFFERS && i < BUFFERS
  {
    if next <= i then i - next else i + BUFFERS - next
  }

  /** How many packets were not dropped. */
  function Through(results: seq<Result>): nat {
    if |results| == 0 then 0
    else Through(results[..|results| - 1]) + if results[|results| - 1] == Dropped then 0 else 1
  }

  /** The stuck headers after an Output whose turn is header n and whose result is r. */
  predicate SticksAs(h0: seq<Header>, q0: seq<nat>, h1: seq<Header>, q1: seq<nat>, n: nat, r: Result) {
    |h0| == |h1| == BUFFERS &&
    forall i | 0 <= i < BUFFERS ::
      StuckHeader(h1, q1, i) <==> StuckHeader(h0, q0, i) || (r == WriteFailed && i == n && h0[i].user)
  }

  predicate StayStuck(h0: seq<Header>, q0: seq<nat>, h1: seq<Header>, q1: seq<nat>) {
    forall i | 0 <= i < BUFFERS && StuckHeader(h0, q0, i) :: StuckHeader(h1, q1, i)
  }

  predicate NoneStuck(h: seq<Header>, q: seq<nat>) {
    forall i | 0 <= i < BUFFERS :: !StuckHeader(h, q, i)
  }

  /** For every header that was stuck when `first` was next: each packet that got through has brought the stuck
      header's turn one closer, and none gets past it. */
  predicate Budget(h0: seq<Header>, q0: seq<nat>, first: nat, next: nat, results: seq<Result>)
    requires first < BUFFERS && next < BUFFERS
  {
    forall i | 0 <= i < BUFFERS && StuckHeader(h0, q0, i) :: Through(results) + Before(next, i) == Before(first, i)
  }

  lemma StaysAtFirst(h: seq<Header>, q: seq<nat>)
    ensures StayStuck(h, q, h, q)
  {
  }

  lemma StickGoes(h0: seq<Header>, q0: seq<nat>, h1: seq<Header>, q1: seq<nat>, h2: seq<Header>, q2: seq<nat>, n: nat,
                  r: Result)
    requires StayStuck(h0, q0, h1, q1) && SticksAs(h1, q1, h2, q2, n, r)
    ensures StayStuck(h0, q0, h2, q2)
    ensures NoneStuck(h1, q1) && r != WriteFailed ==> NoneStuck(h2, q2)
    ensures n < BUFFERS && StuckHeader(h0, q0, n) ==> StuckHeader(h1, q1, n)
  {
    hide StuckHeader;
  }

  lemma BudgetStarts(h0: seq<Header>, q0: seq<nat>, first: nat)
    requires first < BUFFERS
    ensures Budget(h0, q0, first, first, [])
  {
  }

  lemma BudgetGoes(h0: seq<Header>, q0: seq<nat>, h1: seq<Header>, q1: seq<nat>, first: nat, was: nat, next: nat,
                   results: seq<Result>, r: Result)
    requires first < BUFFERS && was < BUFFERS && next < BUFFERS && Budget(h0, q0, first, was, results)
    requires StayStuck(h0, q0, h1, q1) && (StuckHeader(h1, q1, was) ==> r == Dropped)
    requires next == if r == Dropped then was else (was + 1) % BUFFERS
    ensures Budget(h0, q0, first, next, results + [r])
  {
    hide StuckHeader;
    assert (results + [r])[..|results|] == results;
  }

  lemma RunningNotAtAll(h: seq<Header>, q: seq<nat>)
    ensures Ran(h, q, h, q)
  {
    assert q[|q| - |q|..] == q;
  }

  // ---- A port that gets stuck ----

  /** Eight packets on a new port: each header is used once. */
  method FirstRound(packet: Packet, devices: nat -> Device) returns (port: Port, results: seq<Result>)
    ensures fresh(port) && port.Valid() && port.next == 0 && |results| == 8
    ensures (forall i | 0 <= i < BUFFERS :: port.hdr[i].user) && NoneStuck(port.hdr, port.queue)
    ensures forall k | 0 <= k < 8 :: results[k] == Accepted
  {
    hide StuckHeader;
    port := new Port();
    results := [];
    while |results| < 8
      invariant port.Valid() && |results| <= 8 && port.next == |results| % BUFFERS && fresh(port)
      invariant forall i | 0 <= i < BUFFERS :: port.hdr[i].user == (i < |results|)
      invariant NoneStuck(port.hdr, port.queue)
      invariant forall k | 0 <= k < |results| :: results[k] == Accepted
    {
      var r := port.Output(packet, true, devices(|results|));
      results := results + [r];
    }
  }

  /** A new port takes eight packets, the device plays them all, and then refuses the ninth.  Whatever is output
      afterwards, and even if the device accepts everything from then on, at most seven packets ever get through. */
  method RefusedRewrite(packet: Packet, later: seq<Packet>, devices: nat -> Device) returns (results: seq<Result>)
    ensures |results| == 9 + |later|
    ensures (forall k | 0 <= k < 8 :: results[k] == Accepted) && results[8] == WriteFailed
    ensures Through(results[9..]) <= 7
  {
    var port, first := FirstRound(packet, devices);
    port.PlayAll();
    AllPlayed(port.hdr, port.queue);
    var r := port.Output(packet, false, devices(8));
    var rest := port.OutputAll(later, seq(|later|, _ => true), (n: nat) => devices(9 + n));
    results := first + [r] + rest;
    assert results[9..] == rest;
  }

  lemma AllPlayed(h: seq<Header>, q: seq<nat>)
    requires |h| == BUFFERS && q == [] && h[0].user && NoneStuck(h, q)
    ensures h[0].done
  {
    assert !StuckHeader(h, q, 0);
  }
}
