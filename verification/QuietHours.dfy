/** Nightly quiet hours: a window of the day, whether an instant lies in it, and the instant
    at which the alerts queued meanwhile are due. Instants are microseconds since a UTC
    midnight; a window is two times of day with minute resolution. */
module QuietHours {
  const MINUTE := 60_000_000
  const DAY := 86_400_000_000

  type Time = int

  datatype RawWindow = Window(startMinute: nat, endMinute: nat)

  type QuietWindow = w: RawWindow | w.startMinute < 1440 && w.endMinute < 1440
    witness Window(0, 0)

  function StartOfDay(w: QuietWindow): int { w.startMinute * MINUTE }

  function EndOfDay(w: QuietWindow): int { w.endMinute * MINUTE }

  /** Whether the window covers a time of day; equal ends cover the whole day. */
  predicate Covers(w: QuietWindow, current: int) {
    if StartOfDay(w) == EndOfDay(w) then true
    else if StartOfDay(w) < EndOfDay(w) then StartOfDay(w) <= current < EndOfDay(w)
    else current >= StartOfDay(w) || current < EndOfDay(w)
  }

  predicate IsActive(w: QuietWindow, now: Time) { Covers(w, now % DAY) }

  /** When the alerts queued at `now` are to be sent. */
  function QuietHoursEnd(w: QuietWindow, now: Time): Time {
    var endToday := now - now % DAY + EndOfDay(w);
    if StartOfDay(w) == EndOfDay(w) then
      if endToday <= now then endToday + DAY else endToday
    else if StartOfDay(w) < EndOfDay(w) then
      if now < endToday then endToday else endToday + DAY
    else if now % DAY >= StartOfDay(w) then endToday + DAY
    else endToday
  }

  /** How long the window leaves open each day: from its end to its next start. */
  function OpenStretch(w: QuietWindow): (gap: nat) {
    (StartOfDay(w) - EndOfDay(w)) % DAY
  }

  /** The end as seen from a time of day. */
  function EndOffset(w: QuietWindow, current: int): int {
    if StartOfDay(w) == EndOfDay(w) then if EndOfDay(w) <= current then EndOfDay(w) + DAY else EndOfDay(w)
    else if StartOfDay(w) < EndOfDay(w) then if current < EndOfDay(w) then EndOfDay(w) else EndOfDay(w) + DAY
    else if current >= StartOfDay(w) then EndOfDay(w) + DAY else EndOfDay(w)
  }

  lemma TimeOfDay(day: int, current: int)
    requires 0 <= current < DAY
    ensures (day * DAY + current) % DAY == current
  {
  }

  lemma Split(now: Time) returns (day: int, current: int)
    ensures now == day * DAY + current && 0 <= current < DAY
  {
    day, current := now / DAY, now % DAY;
  }

  /** The instants of a day in terms of their time of day. */
  lemma OnDay(w: QuietWindow, day: int, current: int)
    requires 0 <= current < DAY
    ensures IsActive(w, day * DAY + current) <==> Covers(w, current)
    ensures QuietHoursEnd(w, day * DAY + current) == day * DAY + EndOffset(w, current)
  {
    TimeOfDay(day, current);
  }

  lemma Gap(w: QuietWindow)
    ensures OpenStretch(w) ==
      if StartOfDay(w) >= EndOfDay(w) then StartOfDay(w) - EndOfDay(w) else StartOfDay(w) - EndOfDay(w) + DAY
  {
    TimeOfDay(0, if StartOfDay(w) >= EndOfDay(w) then StartOfDay(w) - EndOfDay(w) else 0);
    TimeOfDay(-1, if StartOfDay(w) < EndOfDay(w) then StartOfDay(w) - EndOfDay(w) + DAY else 0);
  }

  /** From an active instant, the computed end is exactly where the current quiet stretch
      ends: every instant up to it is quiet, and it is at most a day away. */
  lemma EndIsExact(w: QuietWindow, now: Time)
    requires IsActive(w, now) && w.startMinute != w.endMinute
    ensures now < QuietHoursEnd(w, now) <= now + DAY
    ensures forall t :: now <= t < QuietHoursEnd(w, now) ==> IsActive(w, t)
    ensures !IsActive(w, QuietHoursEnd(w, now))
  {
    hide IsActive, QuietHoursEnd;
    var day, current := Split(now);
    OnDay(w, day, current);
    forall t | now <= t < QuietHoursEnd(w, now) ensures IsActive(w, t) { OnEitherDay(w, day, t - day * DAY); }
    OnEitherDay(w, day, EndOffset(w, current));
  }

  function StartOn(w: QuietWindow, day: int): Time { day * DAY + StartOfDay(w) }

  function EndOn(w: QuietWindow, day: int): Time { day * DAY + EndOfDay(w) }

  /** Quiet hours began on that day and have not ended since. */
  ghost predicate BegunOn(w: QuietWindow, day: int, now: Time) {
    StartOn(w, day) <= now && forall e :: !(StartOn(w, day) < EndOn(w, e) <= now)
  }

  lemma Begun(w: QuietWindow, day: int, current: int)
    requires w.startMinute != w.endMinute && 0 <= current < DAY && Covers(w, current)
    ensures BegunOn(w, if current >= StartOfDay(w) then day else day - 1, day * DAY + current)
  {
    var d := if current >= StartOfDay(w) then day else day - 1;
    forall e ensures !(StartOn(w, d) < EndOn(w, e) <= day * DAY + current) {
      if e > day {
        assert EndOn(w, e) >= (day + 1) * DAY;
      } else if e < d {
        assert EndOn(w, e) <= StartOn(w, d);
      }
    }
  }

  lemma NotBegun(w: QuietWindow, day: int, current: int, d: int)
    requires w.startMinute != w.endMinute && 0 <= current < DAY && !Covers(w, current)
    ensures !BegunOn(w, d, day * DAY + current)
  {
    var e := if current >= EndOfDay(w) then day else day - 1;
    if StartOn(w, d) <= day * DAY + current {
      assert d <= day;
      assert StartOn(w, d) < EndOn(w, e) <= day * DAY + current;
    }
  }

  /** An instant is quiet if and only if quiet hours have begun on some day and not ended since. */
  lemma ActiveIffBegun(w: QuietWindow, now: Time)
    requires w.startMinute != w.endMinute
    ensures IsActive(w, now) <==> exists d :: BegunOn(w, d, now)
  {
    hide IsActive, BegunOn, Covers;
    var day, current := Split(now);
    OnDay(w, day, current);
    if IsActive(w, now) {
      Begun(w, day, current);
    } else {
      forall d ensures !BegunOn(w, d, now) { NotBegun(w, day, current, d); }
    }
  }

  lemma OnEitherDay(w: QuietWindow, day: int, offset: int)
    requires 0 <= offset < 2 * DAY
    ensures IsActive(w, day * DAY + offset) <==> Covers(w, if offset < DAY then offset else offset - DAY)
  {
    hide IsActive;
    if offset < DAY { OnDay(w, day, offset); } else { OnDay(w, day + 1, offset - DAY); }
  }

  /** The window stays open for exactly `OpenStretch` after that end, then closes again. */
  lemma OpenAfterEnd(w: QuietWindow, now: Time)
    requires IsActive(w, now)
    ensures forall t :: QuietHoursEnd(w, now) <= t < QuietHoursEnd(w, now) + OpenStretch(w) ==> !IsActive(w, t)
    ensures IsActive(w, QuietHoursEnd(w, now) + OpenStretch(w))
  {
    hide IsActive, QuietHoursEnd, OpenStretch;
    var day, current := Split(now);
    OnDay(w, day, current);
    Gap(w);
    forall t | QuietHoursEnd(w, now) <= t < QuietHoursEnd(w, now) + OpenStretch(w) ensures !IsActive(w, t) {
      OnAnyDay(w, day, t - day * DAY);
    }
    OnAnyDay(w, day, EndOffset(w, current) + OpenStretch(w));
  }

  lemma OnAnyDay(w: QuietWindow, day: int, offset: int)
    requires 0 <= offset < 3 * DAY
    ensures IsActive(w, day * DAY + offset) <==>
      Covers(w, if offset < DAY then offset else if offset < 2 * DAY then offset - DAY else offset - 2 * DAY)
  {
    hide IsActive;
    if offset < 2 * DAY { OnEitherDay(w, day, offset); } else { OnDay(w, day + 2, offset - 2 * DAY); }
  }

  /** With equal ends the due time is the next strictly later occurrence of that time of day. */
  lemma NextOccurrence(w: QuietWindow, now: Time)
    requires w.startMinute == w.endMinute
    ensures now < QuietHoursEnd(w, now) <= now + DAY
    ensures QuietHoursEnd(w, now) % DAY == EndOfDay(w)
    ensures forall t :: now < t < QuietHoursEnd(w, now) ==> t % DAY != EndOfDay(w)
  {
    hide QuietHoursEnd;
    var day, current := Split(now);
    OnDay(w, day, current);
    TimeOfDay(day, EndOfDay(w));
    TimeOfDay(day + 1, EndOfDay(w));
    forall t | now < t < QuietHoursEnd(w, now) ensures t % DAY != EndOfDay(w) {
      if t < (day + 1) * DAY { TimeOfDay(day, t - day * DAY); } else { TimeOfDay(day + 1, t - (day + 1) * DAY); }
    }
  }

  /** Exactly when the due time lies in the future: not in the open part of a day whose
      window runs over midnight. */
  lemma EndIsAheadIff(w: QuietWindow, now: Time)
    ensures QuietHoursEnd(w, now) > now <==> IsActive(w, now) || w.startMinute < w.endMinute
  {
    hide IsActive, QuietHoursEnd;
    var day, current := Split(now);
    OnDay(w, day, current);
  }
}
