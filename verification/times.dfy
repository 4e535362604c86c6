/** The time of day, in milliseconds since midnight. */
module Times {
  import opened CDivision

  const MS_IN_DAY: int := 24 * 3600 * 1000
  const TIME_MS_INVALID: int := -1

  datatype Hms = Hms(hour: int, minute: int, second: int, msec: int)

  predicate IsInvalid(ms: int) {
    ms < 0 || ms >= MS_IN_DAY
  }

  predicate IsValid(t: Hms) {
    0 <= t.hour <= 23 && 0 <= t.minute <= 59 && 0 <= t.second <= 59 && 0 <= t.msec <= 999
  }

  function HmsToMs(t: Hms): int {
    t.hour * 60 * 60 * 1000 + t.minute * 60 * 1000 + t.second * 1000 + t.msec
  }

  function MsToHms(ms: int): Hms {
    Hms(TruncDiv(ms, 60 * 60 * 1000), TruncDiv(TruncMod(ms, 60 * 60 * 1000), 60 * 1000),
        TruncMod(TruncDiv(ms, 1000), 60), TruncMod(ms, 1000))
  }

  lemma HmsRoundTrip(t: Hms)
    requires IsValid(t)
    ensures !IsInvalid(HmsToMs(t)) && MsToHms(HmsToMs(t)) == t
  {
    var ms := HmsToMs(t);
    QuotientUnique(ms, 3600000, t.hour, ms - 3600000 * t.hour);
    QuotientUnique(ms - 3600000 * t.hour, 60000, t.minute, t.second * 1000 + t.msec);
    QuotientUnique(ms, 1000, 3600 * t.hour + 60 * t.minute + t.second, t.msec);
    QuotientUnique(3600 * t.hour + 60 * t.minute + t.second, 60, 60 * t.hour + t.minute, t.second);
  }

  lemma MsRoundTrip(ms: int)
    requires !IsInvalid(ms)
    ensures IsValid(MsToHms(ms)) && HmsToMs(MsToHms(ms)) == ms
  {
    var s := ms / 1000;
    assert ms == 1000 * s + ms % 1000;
    var h, r := ms / 3600000, ms % 3600000;
    assert ms == 3600000 * h + r;
    var m := r / 60000;
    assert r == 60000 * m + r % 60000;
    QuotientUnique(s, 60, 60 * h + m, s - 3600 * h - 60 * m);
  }

  /** A time moved by some milliseconds, round the clock. */
  function Shift(ms: int, delta: int): int {
    (ms + delta) % MS_IN_DAY
  }

  lemma ShiftInverse(ms: int, delta: int)
    requires !IsInvalid(ms)
    ensures !IsInvalid(Shift(ms, delta)) && Shift(Shift(ms, delta), -delta) == ms
  {
    var q := (ms + delta) / MS_IN_DAY;
    assert ms + delta == MS_IN_DAY * q + Shift(ms, delta);
    QuotientUnique(Shift(ms, delta) - delta, MS_IN_DAY, -q, ms);
  }

  /** The outcome of a call that may stop the program. */
  datatype Result = Returned | Exited

  class Time {
    var ms: int

    constructor ()
      ensures ms == -1
    {
      ms := TIME_MS_INVALID;
    }

    method Set(t: Hms)
      modifies this
      ensures if IsValid(t) then !IsInvalid(ms) && MsToHms(ms) == t else ms == -1
    {
      if IsValid(t) {
        HmsRoundTrip(t);
        ms := HmsToMs(t);
      } else {
        ms := TIME_MS_INVALID;
      }
    }

    /** `operator +=`: the program stops when the shift is longer than a day. */
    method Add(secs: int) returns (r: Result)
      modifies this
      ensures r == Exited <==> secs < -86400 || secs > 86400
      ensures r == Exited || IsInvalid(old(ms)) ==> ms == old(ms)
      ensures r == Returned && !IsInvalid(old(ms)) ==> ms == Shift(old(ms), secs * 1000)
      ensures r == Returned && !IsInvalid(old(ms)) ==>
                !IsInvalid(ms) && (ms - old(ms) - secs * 1000) % 86400000 == 0
    {
      var delta := secs * 1000;
      if delta > MS_IN_DAY || delta < -MS_IN_DAY {
        return Exited;
      }
      if !IsInvalid(ms) {
        ms := ms + delta;
        if ms < 0 {
          ms := ms + MS_IN_DAY;
        }
        if ms >= MS_IN_DAY {
          ms := ms - MS_IN_DAY;
        }
      }
      r := Returned;
    }

    /** `operator -=`. */
    method Subtract(secs: int) returns (r: Result)
      modifies this
      ensures r == Exited <==> secs < -86400 || secs > 86400
      ensures r == Exited || IsInvalid(old(ms)) ==> ms == old(ms)
      ensures r == Returned && !IsInvalid(old(ms)) ==> ms == Shift(old(ms), -(secs * 1000))
      ensures r == Returned && !IsInvalid(old(ms)) ==>
                !IsInvalid(ms) && (ms - old(ms) + secs * 1000) % 86400000 == 0
    {
      var delta := secs * 1000;
      if delta > MS_IN_DAY || delta < -MS_IN_DAY {
        return Exited;
      }
      if !IsInvalid(ms) {
        ms := ms - delta;
        if ms < 0 {
          ms := ms + MS_IN_DAY;
        }
        if ms >= MS_IN_DAY {
          ms := ms - MS_IN_DAY;
        }
      }
      r := Returned;
    }
  }
}
