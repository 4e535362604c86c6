/** The bit pattern of an event flag: what waiting on it and clearing it mean.

    A pattern is a 64-bit word.  Its meaning is the set of events that are signalled;
    an event is a word with exactly one bit set. */
module EventPatterns {

  const WAIT_OR: bv32 := 0x02
  const WAIT_CLEAR_ALL: bv32 := 0x10
  const WAIT_CLEAR_PAT: bv32 := 0x20

  /** Whether a wait for `bits` is over: all bits, or any of them in OR mode. */
  predicate Satisfied(pattern: bv64, bits: bv64, mode: bv32) {
    if bits == 0 then true
    else if mode & WAIT_OR != 0 then pattern & bits != 0
    else pattern & bits == bits
  }

  /** The pattern a successful wait leaves behind. */
  function Cleared(pattern: bv64, bits: bv64, mode: bv32): bv64 {
    if mode & WAIT_CLEAR_ALL != 0 then 0
    else if mode & WAIT_CLEAR_PAT != 0 then pattern & !bits
    else pattern
  }

  predicate IsEvent(b: bv64) {
    b != 0 && b & (b - 1) == 0
  }

  predicate Has(pattern: bv64, b: bv64) {
    pattern & b != 0
  }

  /** The events signalled by a pattern. */
  ghost function Events(pattern: bv64): iset<bv64> {
    iset b: bv64 | IsEvent(b) && Has(pattern, b)
  }

  /** Lowest set bit of a non-zero word. */
  function LowestEvent(x: bv64): (b: bv64)
    requires x != 0
    ensures IsEvent(b) && Has(x, b)
  {
    x & (0 - x)
  }

  /** Two words that signal the same events are the same word. */
  lemma EventsInjective(x: bv64, y: bv64)
    ensures Events(x) == Events(y) <==> x == y
  {
    if x != y {
      var b := DifferingEvent(x, y);
      assert (b in Events(x)) != (b in Events(y));
    }
  }

  /** An event that exactly one of two different words signals. */
  lemma DifferingEvent(x: bv64, y: bv64) returns (b: bv64)
    requires x != y
    ensures IsEvent(b) && Has(x, b) != Has(y, b)
  {
    DifferentWords(x, y);
    b := LowestEvent(x ^ y);
    OneSideOnly(x, y, b);
  }

  lemma DifferentWords(x: bv64, y: bv64)
    ensures x ^ y == 0 <==> x == y
  {
  }

  lemma OneSideOnly(x: bv64, y: bv64, b: bv64)
    requires IsEvent(b) && Has(x ^ y, b)
    ensures Has(x, b) != Has(y, b)
  {
  }

  lemma EventOfUnion(x: bv64, y: bv64, b: bv64)
    ensures Has(x | y, b) <==> Has(x, b) || Has(y, b)
  {
    assert (x | y) & b == (x & b) | (y & b);
    NoneOfEither(x & b, y & b);
  }

  lemma NoneOfEither(x: bv64, y: bv64)
    ensures x | y == 0 <==> x == 0 && y == 0
  {
  }

  lemma EventOfMeet(x: bv64, y: bv64, b: bv64)
    requires IsEvent(b)
    ensures Has(x & y, b) <==> Has(x, b) && Has(y, b)
    ensures Has(x & !y, b) <==> Has(x, b) && !Has(y, b)
  {
  }

  /** Setting bits signals exactly those events and forgets none. */
  lemma UnionMeaning(x: bv64, y: bv64)
    ensures Events(x | y) == Events(x) + Events(y)
  {
    forall b: bv64 | IsEvent(b) ensures Has(x | y, b) <==> Has(x, b) || Has(y, b) {
      EventOfUnion(x, y, b);
    }
  }

  /** Clear keeps the events of its argument; a clearing wait drops them. */
  lemma MeetMeaning(x: bv64, y: bv64)
    ensures Events(x & y) == Events(x) * Events(y)
    ensures Events(x & !y) == Events(x) - Events(y)
  {
    forall b: bv64 | IsEvent(b)
      ensures Has(x & y, b) <==> Has(x, b) && Has(y, b)
      ensures Has(x & !y, b) <==> Has(x, b) && !Has(y, b)
    {
      EventOfMeet(x, y, b);
    }
  }

  /** A wait mode: any or all of the bits, and what success clears. */
  datatype Mode = Mode(any: bool, clearAll: bool, clearPattern: bool)

  function ModeOf(mode: bv32): Mode {
    Mode(mode & 0x02 != 0, mode & 0x10 != 0, mode & 0x20 != 0)
  }

  /** The waiting condition read as sets of events. */
  ghost predicate Fulfilled(signalled: iset<bv64>, wanted: iset<bv64>, mode: Mode) {
    if wanted == iset{} then true
    else if mode.any then signalled * wanted != iset{}
    else wanted <= signalled
  }

  /** What a successful wait leaves, read as sets of events. */
  ghost function Remaining(signalled: iset<bv64>, wanted: iset<bv64>, mode: Mode): iset<bv64> {
    if mode.clearAll then iset{}
    else if mode.clearPattern then signalled - wanted
    else signalled
  }

  lemma NoEvents()
    ensures Events(0) == iset{}
  {
    forall b: bv64 ensures !Has(0, b) {}
  }

  lemma SomeEvent(x: bv64)
    ensures x == 0 <==> Events(x) == iset{}
  {
    NoEvents();
    if x != 0 {
      assert LowestEvent(x) in Events(x);
    }
  }

  /** The word-level test is the set-level condition, in every mode. */
  lemma SatisfiedMeaning(pattern: bv64, bits: bv64, mode: bv32)
    ensures Satisfied(pattern, bits, mode) <==> Fulfilled(Events(pattern), Events(bits), ModeOf(mode))
  {
    SomeEvent(bits);
    MeetMeaning(pattern, bits);
    SomeEvent(pattern & bits);
    EventsInjective(pattern & bits, bits);
    if Events(bits) <= Events(pattern) {
      assert Events(pattern) * Events(bits) == Events(bits);
    }
  }

  lemma ClearedMeaning(pattern: bv64, bits: bv64, mode: bv32)
    ensures Events(Cleared(pattern, bits, mode)) == Remaining(Events(pattern), Events(bits), ModeOf(mode))
  {
    hide Events;
    NoEvents();
    MeetMeaning(pattern, bits);
  }
}
