/**
 * The wall-clock solver of the scheduler (packages/app-runtime/src/scheduler-domain.ts:142-249).
 *
 * A civil date is its day number, counted from 1970-01-01, so rolling the day of the month past the
 * end of a month is addition; a wall clock is a day number and a minute of that day. A time zone is any
 * function from instants to offsets from UTC, both in milliseconds.
 */
module WallClock {
  import opened Results

  const MINUTE_MS: int := 60_000
  const DAY_MS: int := 1440 * 60_000
  const NOON_MS: int := 720 * 60_000
  /** Day shifts tried: today and the eight days after it. */
  const LAST_SHIFT: nat := 8

  type Zone = int -> int

  datatype Wall = Wall(day: int, minute: int)

  /** 1970-01-01 was a Thursday; Sunday is 0. */
  function Weekday(day: int): (w: nat)
    ensures w < 7
  {
    (day + 4) % 7
  }

  function WallAt(at: int, zone: Zone): Wall {
    var local := at + zone(at);
    Wall(local / DAY_MS, local % DAY_MS / MINUTE_MS)
  }

  /** `Date.UTC` of a civil date and a minute of the day. */
  function Utc(w: Wall): int {
    w.day * DAY_MS + w.minute * MINUTE_MS
  }

  function TzOffset(at: int, zone: Zone): int {
    Utc(WallAt(at, zone)) - at / MINUTE_MS * MINUTE_MS
  }

  predicate Allowed(weekdays: Option<set<nat>>, day: int) {
    weekdays.None? || Weekday(day) in weekdays.value
  }

  /** The instant reached after re-reading the offset `n` more times, starting from `candidate`. */
  function Settle(wallMs: int, candidate: int, zone: Zone, n: nat): int
    decreases n
  {
    if n == 0 then candidate else Settle(wallMs, wallMs - TzOffset(candidate, zone), zone, n - 1)
  }

  /** The civil date that noon UTC of the shifted start date falls on in the zone. */
  function ProbedDay(afterMs: int, shift: nat, zone: Zone): int {
    WallAt((WallAt(afterMs, zone).day + shift) * DAY_MS + NOON_MS, zone).day
  }

  function TryDay(minute: int, weekdays: Option<set<nat>>, afterMs: int, zone: Zone, shift: nat): Option<int> {
    var target := Wall(ProbedDay(afterMs, shift, zone), minute);
    var wallMs := Utc(target);
    var candidate := Settle(wallMs, wallMs - TzOffset(afterMs, zone), zone, 3);
    if Allowed(weekdays, target.day) && candidate > afterMs && WallAt(candidate, zone) == target
    then Some(candidate) else None
  }

  /** The first day shift from `shift` on that yields an instant. */
  function NextFrom(minute: int, weekdays: Option<set<nat>>, afterMs: int, zone: Zone, shift: nat): Option<int>
    decreases LAST_SHIFT + 1 - shift
  {
    if shift > LAST_SHIFT then None
    else if TryDay(minute, weekdays, afterMs, zone, shift).Some? then TryDay(minute, weekdays, afterMs, zone, shift)
    else NextFrom(minute, weekdays, afterMs, zone, shift + 1)
  }

  function NextWall(minute: int, weekdays: Option<set<nat>>, afterMs: int, zone: Zone): Option<int> {
    NextFrom(minute, weekdays, afterMs, zone, 0)
  }

  predicate MinuteAligned(z: int) {
    z % MINUTE_MS == 0
  }

  /**
   * The offset `z` is in force both at the first guess for the day, made with the offset of the start instant, and at
   * the instant that reads the target under `z`, which is later than the start and on an allowed weekday.
   */
  ghost predicate DaySettles(minute: int, weekdays: Option<set<nat>>, afterMs: int, zone: Zone, shift: nat, z: int) {
    var day := ProbedDay(afterMs, shift, zone);
    var at := Utc(Wall(day, minute)) - z;
    && MinuteAligned(z) && 0 <= minute < 1440 && shift <= LAST_SHIFT
    && Allowed(weekdays, day) && at > afterMs
    && zone(at) == z && zone(at + z - TzOffset(afterMs, zone)) == z
  }

  /** What is promised for any zone: a later occurrence or none, and none only if no day settles. */
  ghost predicate NextPromise(minute: int, weekdays: Option<set<nat>>, afterMs: int, zone: Zone, r: Option<int>) {
    && (r.Some? ==> r.value > afterMs && IsOccurrence(minute, weekdays, zone, r.value))
    && forall shift, z :: DaySettles(minute, weekdays, afterMs, zone, shift, z) ==> r.Some?
  }

  lemma NextKeepsPromise(minute: int, weekdays: Option<set<nat>>, afterMs: int, zone: Zone)
    ensures NextPromise(minute, weekdays, afterMs, zone, NextWall(minute, weekdays, afterMs, zone))
  {
    hide IsOccurrence, DaySettles, NextFrom;
    NextIsLaterOccurrence(minute, weekdays, afterMs, zone, 0);
    forall shift, z | DaySettles(minute, weekdays, afterMs, zone, shift, z)
      ensures NextWall(minute, weekdays, afterMs, zone).Some?
    {
      SettledDayIsFound(minute, weekdays, afterMs, zone, shift, z);
    }
  }

  method NextWallOccurrence(minute: int, weekdays: Option<set<nat>>, afterMs: int, zone: Zone) returns (r: Option<int>)
    ensures r == NextWall(minute, weekdays, afterMs, zone)
    ensures NextPromise(minute, weekdays, afterMs, zone, r)
  {
    hide NextPromise;
    NextKeepsPromise(minute, weekdays, afterMs, zone);
    var startDay := WallAt(afterMs, zone);
    var dayShift := 0;
    hide WallAt, TzOffset, Utc, Weekday;
    while dayShift <= LAST_SHIFT
      invariant dayShift <= LAST_SHIFT + 1
      invariant NextFrom(minute, weekdays, afterMs, zone, dayShift) == NextWall(minute, weekdays, afterMs, zone)
    {
      var day := WallAt((startDay.day + dayShift) * DAY_MS + NOON_MS, zone).day;
      if weekdays.None? || Weekday(day) in weekdays.value {
        var wallMs := Utc(Wall(day, minute));
        var candidate := wallMs - TzOffset(afterMs, zone);
        ghost var first := candidate;
        var iteration := 0;
        while iteration < 3
          invariant iteration <= 3
          invariant Settle(wallMs, candidate, zone, 3 - iteration) == Settle(wallMs, first, zone, 3)
        {
          candidate := wallMs - TzOffset(candidate, zone);
          iteration := iteration + 1;
        }
        if candidate > afterMs && WallAt(candidate, zone) == Wall(day, minute) {
          return Some(candidate);
        }
      }
      dayShift := dayShift + 1;
    }
    r := None;
  }

  // ----- Any zone -----

  /** The start of the minute that reads HH:MM on an allowed weekday. */
  ghost predicate IsOccurrence(minute: int, weekdays: Option<set<nat>>, zone: Zone, at: int) {
    && at % MINUTE_MS == 0
    && WallAt(at, zone).minute == minute
    && Allowed(weekdays, WallAt(at, zone).day)
  }

  lemma SettledIsMinuteAligned(wall: Wall, candidate: int, zone: Zone, n: nat)
    requires n > 0
    ensures Settle(Utc(wall), candidate, zone, n) % MINUTE_MS == 0
    decreases n
  {
    if n == 1 {
      var w := WallAt(candidate, zone);
      var minutes := (wall.day - w.day) * 1440 + wall.minute - w.minute + candidate / MINUTE_MS;
      assert Settle(Utc(wall), candidate, zone, 1) == Utc(wall) - TzOffset(candidate, zone) == minutes * MINUTE_MS;
    } else {
      SettledIsMinuteAligned(wall, Utc(wall) - TzOffset(candidate, zone), zone, n - 1);
    }
  }

  /** Whatever the zone does, an instant returned is strictly later and reads back as the target. */
  lemma {:induction false} NextIsLaterOccurrence(minute: int, weekdays: Option<set<nat>>, afterMs: int,
                                                 zone: Zone, shift: nat)
    ensures
      var r := NextFrom(minute, weekdays, afterMs, zone, shift);
      r.Some? ==> r.value > afterMs && IsOccurrence(minute, weekdays, zone, r.value)
    decreases LAST_SHIFT + 1 - shift
  {
    hide TryDay, IsOccurrence;
    if shift <= LAST_SHIFT {
      TryDayIsLaterOccurrence(minute, weekdays, afterMs, zone, shift);
      NextIsLaterOccurrence(minute, weekdays, afterMs, zone, shift + 1);
    }
  }

  lemma TryDayUnfolds(minute: int, weekdays: Option<set<nat>>, afterMs: int, zone: Zone, shift: nat,
                      target: Wall, found: int)
    requires target == Wall(ProbedDay(afterMs, shift, zone), minute)
    requires found == Settle(Utc(target), Utc(target) - TzOffset(afterMs, zone), zone, 3)
    ensures TryDay(minute, weekdays, afterMs, zone, shift) ==
      if Allowed(weekdays, target.day) && found > afterMs && WallAt(found, zone) == target then Some(found) else None
  {
    hide WallAt, TzOffset, ProbedDay, Settle, Utc, Allowed;
  }

  lemma TryDayIsLaterOccurrence(minute: int, weekdays: Option<set<nat>>, afterMs: int, zone: Zone, shift: nat)
    ensures
      var r := TryDay(minute, weekdays, afterMs, zone, shift);
      r.Some? ==> r.value > afterMs && IsOccurrence(minute, weekdays, zone, r.value)
  {
    hide WallAt, TzOffset, Weekday, ProbedDay, Settle, Utc;
    var target := Wall(ProbedDay(afterMs, shift, zone), minute);
    SettledIsMinuteAligned(target, Utc(target) - TzOffset(afterMs, zone), zone, 3);
  }

  // ----- A fixed offset -----

  function Fixed(z: int): Zone {
    at => z
  }

  lemma FixedOffsetReads(z: int, at: int)
    requires MinuteAligned(z)
    ensures TzOffset(at, Fixed(z)) == z
  {
    var local := at + z;
    var q, r := local / DAY_MS, local % DAY_MS;
    assert local == q * DAY_MS + r;
    assert local / MINUTE_MS == at / MINUTE_MS + z / MINUTE_MS;
    assert local / MINUTE_MS == q * 1440 + r / MINUTE_MS;
  }

  lemma WallOfUtc(day: int, minute: int, z: int)
    requires 0 <= minute < 1440
    ensures WallAt(Utc(Wall(day, minute)) - z, Fixed(z)) == Wall(day, minute)
  {
    var local := Utc(Wall(day, minute));
    assert local / DAY_MS == day && local % DAY_MS == minute * MINUTE_MS;
  }

  /** How far the noon-UTC probe is off the date it was meant for. */
  ghost function ProbeSlip(z: int): int {
    (NOON_MS + z) / DAY_MS
  }

  lemma ProbeOfFixed(afterMs: int, z: int, shift: nat)
    ensures ProbedDay(afterMs, shift, Fixed(z)) == WallAt(afterMs, Fixed(z)).day + shift + ProbeSlip(z)
  {
    var d := WallAt(afterMs, Fixed(z)).day + shift;
    assert (d * DAY_MS + (NOON_MS + z)) / DAY_MS == d + (NOON_MS + z) / DAY_MS;
  }

  lemma SettlesAt(wallMs: int, guess: int, zone: Zone, z: int)
    requires TzOffset(guess, zone) == z && TzOffset(wallMs - z, zone) == z
    ensures Settle(wallMs, guess, zone, 3) == wallMs - z
  {
    hide TzOffset;
    var at := wallMs - z;
    assert Settle(wallMs, guess, zone, 3) == Settle(wallMs, at, zone, 2) == Settle(wallMs, at, zone, 1) == at;
  }

  lemma TryDayOfFixed(minute: int, weekdays: Option<set<nat>>, afterMs: int, z: int, shift: nat)
    requires MinuteAligned(z) && 0 <= minute < 1440
    ensures
      var day := WallAt(afterMs, Fixed(z)).day + shift + ProbeSlip(z);
      var at := Utc(Wall(day, minute)) - z;
      TryDay(minute, weekdays, afterMs, Fixed(z), shift) ==
        if Allowed(weekdays, day) && at > afterMs then Some(at) else None
  {
    hide WallAt, TzOffset, Weekday, ProbedDay, Utc, ProbeSlip, Settle, TryDay, MinuteAligned, Fixed;
    ProbeOfFixed(afterMs, z, shift);
    var target := Wall(WallAt(afterMs, Fixed(z)).day + shift + ProbeSlip(z), minute);
    var at := Utc(target) - z;
    FixedOffsetReads(z, afterMs);
    FixedOffsetReads(z, at);
    WallOfUtc(target.day, minute, z);
    SettlesAt(Utc(target), at, Fixed(z), z);
    TryDayUnfolds(minute, weekdays, afterMs, Fixed(z), shift, target, at);
  }

  lemma OccurrenceIsUtc(minute: int, weekdays: Option<set<nat>>, z: int, at: int)
    requires MinuteAligned(z) && IsOccurrence(minute, weekdays, Fixed(z), at)
    ensures WallAt(at, Fixed(z)) == Wall(WallAt(at, Fixed(z)).day, minute)
      && Allowed(weekdays, WallAt(at, Fixed(z)).day)
    ensures at == Utc(WallAt(at, Fixed(z))) - z
  {
    WholeMinutes(at + z, (at / MINUTE_MS) + z / MINUTE_MS);
  }

  lemma WholeMinutes(local: int, minutes: int)
    requires local == minutes * MINUTE_MS
    ensures local / DAY_MS * DAY_MS + local % DAY_MS / MINUTE_MS * MINUTE_MS == local
  {
    var q := local / DAY_MS;
    assert local % DAY_MS == (minutes - 1440 * q) * MINUTE_MS;
  }

  lemma UtcIsOccurrence(minute: int, weekdays: Option<set<nat>>, z: int, day: int)
    requires MinuteAligned(z) && 0 <= minute < 1440 && Allowed(weekdays, day)
    ensures IsOccurrence(minute, weekdays, Fixed(z), Utc(Wall(day, minute)) - z)
  {
    WallOfUtc(day, minute, z);
    var minutes := day * 1440 + minute - z / MINUTE_MS;
    assert Utc(Wall(day, minute)) - z == minutes * MINUTE_MS;
  }

  /** No later occurrence on a probed date is overlooked. */
  lemma {:induction false} NoProbedDayIsSkipped(minute: int, weekdays: Option<set<nat>>, afterMs: int,
                                                z: int, shift: nat, day: int)
    requires MinuteAligned(z) && 0 <= minute < 1440
    requires shift <= day - WallAt(afterMs, Fixed(z)).day - ProbeSlip(z) <= LAST_SHIFT
    requires Allowed(weekdays, day) && Utc(Wall(day, minute)) - z > afterMs
    ensures
      var r := NextFrom(minute, weekdays, afterMs, Fixed(z), shift);
      r.Some? && r.value <= Utc(Wall(day, minute)) - z
    decreases LAST_SHIFT + 1 - shift
  {
    hide WallAt, Weekday, TryDay, ProbeSlip;
    TryDayOfFixed(minute, weekdays, afterMs, z, shift);
    var tried := WallAt(afterMs, Fixed(z)).day + shift + ProbeSlip(z);
    if tried < day {
      NoProbedDayIsSkipped(minute, weekdays, afterMs, z, shift + 1, day);
    } else {
      assert tried == day;
    }
  }

  /** Some allowed weekday is among any seven days in a row. */
  lemma AllowedDayInWeek(weekdays: Option<set<nat>>, first: int) returns (k: nat)
    requires weekdays.Some? ==> exists w: nat :: w in weekdays.value && w < 7
    ensures k < 7 && Allowed(weekdays, first + k)
  {
    k := 0;
    if weekdays.Some? {
      var w: nat :| w in weekdays.value && w < 7;
      k := (w - Weekday(first)) % 7;
      assert (first + k + 4) % 7 == w;
    }
  }

  lemma LaterDayIsLater(afterMs: int, z: int, day: int, minute: int)
    requires 0 <= minute < 1440
    ensures day > WallAt(afterMs, Fixed(z)).day ==> Utc(Wall(day, minute)) - z > afterMs
    ensures day < WallAt(afterMs, Fixed(z)).day ==> Utc(Wall(day, minute)) - z <= afterMs
  {
    var local := afterMs + z;
    assert local / DAY_MS * DAY_MS <= local < (local / DAY_MS + 1) * DAY_MS;
  }

  /** The occurrence that the noon-UTC probe cannot see: later on the start date, this far east. */
  predicate LostToday(minute: int, weekdays: Option<set<nat>>, afterMs: int, z: int) {
    var today := WallAt(afterMs, Fixed(z)).day;
    z >= NOON_MS && Allowed(weekdays, today) && Utc(Wall(today, minute)) - z > afterMs
  }

  lemma UtcIsMonotone(d: int, e: int, minute: int)
    ensures d <= e <==> Utc(Wall(d, minute)) <= Utc(Wall(e, minute))
  {}

  lemma SlipOfRealOffsets(z: int)
    requires -3 * NOON_MS <= z < 3 * NOON_MS
    ensures -1 <= ProbeSlip(z) <= 1 && (ProbeSlip(z) == 1 <==> z >= NOON_MS)
  {}

  /** With a fixed offset and a non-empty weekday set an instant is found within a week of the start date. */
  lemma FixedOffsetFinds(minute: int, weekdays: Option<set<nat>>, afterMs: int, z: int)
    requires MinuteAligned(z) && -3 * NOON_MS <= z < 3 * NOON_MS && 0 <= minute < 1440
    requires weekdays.Some? ==> exists w: nat :: w in weekdays.value && w < 7
    ensures
      var r := NextWall(minute, weekdays, afterMs, Fixed(z));
      r.Some? && r.value <= Utc(Wall(WallAt(afterMs, Fixed(z)).day + 7, minute)) - z
  {
    hide WallAt, Weekday, NextFrom, ProbeSlip, Fixed, Utc;
    var today := WallAt(afterMs, Fixed(z)).day;
    SlipOfRealOffsets(z);
    var k := AllowedDayInWeek(weekdays, today + 1);
    LaterDayIsLater(afterMs, z, today + 1 + k, minute);
    NoProbedDayIsSkipped(minute, weekdays, afterMs, z, 0, today + 1 + k);
    UtcIsMonotone(today + 1 + k, today + 7, minute);
  }

  /** Only an occurrence later on the start date, twelve hours or more east of UTC, can be passed over. */
  lemma FixedOffsetNext(minute: int, weekdays: Option<set<nat>>, afterMs: int, z: int, at: int)
    requires MinuteAligned(z) && -3 * NOON_MS <= z < 3 * NOON_MS && 0 <= minute < 1440
    requires weekdays.Some? ==> exists w: nat :: w in weekdays.value && w < 7
    requires IsOccurrence(minute, weekdays, Fixed(z), at) && at > afterMs
    ensures
      var r := NextWall(minute, weekdays, afterMs, Fixed(z));
      r.Some? && (r.value <= at || LostToday(minute, weekdays, afterMs, z))
  {
    hide WallAt, Weekday, NextFrom, ProbeSlip, Fixed, Utc, IsOccurrence;
    var today, slip, d := WallAt(afterMs, Fixed(z)).day, ProbeSlip(z), WallAt(at, Fixed(z)).day;
    UtcIsMonotone(d, today + 7, minute);
    SlipOfRealOffsets(z);
    OccurrenceIsUtc(minute, weekdays, z, at);
    LaterDayIsLater(afterMs, z, d, minute);
    FixedOffsetFinds(minute, weekdays, afterMs, z);
    if today + slip <= d <= today + 7 {
      NoProbedDayIsSkipped(minute, weekdays, afterMs, z, 0, d);
    }
  }

  /** The solver's promise: the least instant strictly after `afterMs` that reads HH:MM on an allowed weekday. */
  ghost predicate IsNextOccurrence(minute: int, weekdays: Option<set<nat>>, afterMs: int, zone: Zone, r: int) {
    && r > afterMs
    && IsOccurrence(minute, weekdays, zone, r)
    && forall at :: IsOccurrence(minute, weekdays, zone, at) && at > afterMs ==> r <= at
  }

  /** For a fixed offset the promise is kept exactly when nothing is left to occur on a start date that far east. */
  lemma NextIsLeastIff(minute: int, weekdays: Option<set<nat>>, afterMs: int, z: int)
    requires MinuteAligned(z) && -3 * NOON_MS <= z < 3 * NOON_MS && 0 <= minute < 1440
    requires weekdays.Some? ==> exists w: nat :: w in weekdays.value && w < 7
    ensures NextWall(minute, weekdays, afterMs, Fixed(z)).Some?
    ensures IsNextOccurrence(minute, weekdays, afterMs, Fixed(z), NextWall(minute, weekdays, afterMs, Fixed(z)).value)
       <==> !LostToday(minute, weekdays, afterMs, z)
  {
    FixedOffsetFinds(minute, weekdays, afterMs, z);
    NextIsLaterOccurrence(minute, weekdays, afterMs, Fixed(z), 0);
    var r := NextWall(minute, weekdays, afterMs, Fixed(z)).value;
    if LostToday(minute, weekdays, afterMs, z) {
      var today := WallAt(afterMs, Fixed(z)).day;
      var missed := Utc(Wall(today, minute)) - z;
      UtcIsOccurrence(minute, weekdays, z, today);
      NextSkipsToday(minute, weekdays, afterMs, z, 0);
      assert missed < r;
    } else {
      forall at | IsOccurrence(minute, weekdays, Fixed(z), at) && at > afterMs ensures r <= at {
        FixedOffsetNext(minute, weekdays, afterMs, z, at);
      }
    }
  }

  lemma {:induction false} NextSkipsToday(minute: int, weekdays: Option<set<nat>>, afterMs: int, z: int, shift: nat)
    requires MinuteAligned(z) && NOON_MS <= z < 3 * NOON_MS && 0 <= minute < 1440
    ensures
      var r := NextFrom(minute, weekdays, afterMs, Fixed(z), shift);
      r.Some? ==> r.value > Utc(Wall(WallAt(afterMs, Fixed(z)).day, minute)) - z
    decreases LAST_SHIFT + 1 - shift
  {
    hide WallAt, Weekday, TryDay, Fixed;
    if shift <= LAST_SHIFT {
      TryDayOfFixed(minute, weekdays, afterMs, z, shift);
      assert ProbeSlip(z) == 1;
      NextSkipsToday(minute, weekdays, afterMs, z, shift + 1);
    }
  }

  /** A run of windows is exact wherever it starts: from one occurrence the solver always finds the next. */
  lemma NextAfterOccurrenceIsLeast(minute: int, weekdays: Option<set<nat>>, afterMs: int, z: int)
    requires MinuteAligned(z) && -3 * NOON_MS <= z < 3 * NOON_MS && 0 <= minute < 1440
    requires weekdays.Some? ==> exists w: nat :: w in weekdays.value && w < 7
    requires IsOccurrence(minute, weekdays, Fixed(z), afterMs)
    ensures NextWall(minute, weekdays, afterMs, Fixed(z)).Some?
    ensures IsNextOccurrence(minute, weekdays, afterMs, Fixed(z), NextWall(minute, weekdays, afterMs, Fixed(z)).value)
  {
    OccurrenceIsUtc(minute, weekdays, z, afterMs);
    NextIsLeastIff(minute, weekdays, afterMs, z);
  }

  // ----- A change of offset -----

  /** With a minute-aligned offset the wall clock and the offset are read off the instant exactly. */
  lemma OffsetIsRead(at: int, zone: Zone)
    requires MinuteAligned(zone(at))
    ensures TzOffset(at, zone) == zone(at)
  {
    FixedOffsetReads(zone(at), at);
  }

  lemma TargetIsRead(day: int, minute: int, zone: Zone, at: int)
    requires 0 <= minute < 1440 && at == Utc(Wall(day, minute)) - zone(at)
    ensures WallAt(at, zone) == Wall(day, minute)
  {
    WallOfUtc(day, minute, zone(at));
  }

  /** In any zone a day that settles is answered by that instant, however far the offset of the start was off. */
  lemma SettledDayIsFound(minute: int, weekdays: Option<set<nat>>, afterMs: int, zone: Zone, shift: nat, z: int)
    requires DaySettles(minute, weekdays, afterMs, zone, shift, z)
    ensures
      var at := Utc(Wall(ProbedDay(afterMs, shift, zone), minute)) - z;
      && TryDay(minute, weekdays, afterMs, zone, shift) == Some(at)
      && NextFrom(minute, weekdays, afterMs, zone, shift) == Some(at)
      && NextWall(minute, weekdays, afterMs, zone).Some?
  {
    hide WallAt, TzOffset, Weekday, ProbedDay, Utc, Settle, TryDay, NextFrom, MinuteAligned;
    var target := Wall(ProbedDay(afterMs, shift, zone), minute);
    var at, guess := Utc(target) - z, Utc(target) - TzOffset(afterMs, zone);
    OffsetIsRead(at, zone);
    OffsetIsRead(guess, zone);
    TargetIsRead(target.day, minute, zone, at);
    SettlesAt(Utc(target), guess, zone, z);
    TryDayUnfolds(minute, weekdays, afterMs, zone, shift, target, at);
    FoundFromStart(minute, weekdays, afterMs, zone, shift, shift);
  }

  /** An instant found on some day is enough for the search from an earlier day to find one. */
  lemma {:induction false} FoundFromStart(minute: int, weekdays: Option<set<nat>>, afterMs: int, zone: Zone,
                                          shift: nat, back: nat)
    requires shift <= LAST_SHIFT && back <= shift && TryDay(minute, weekdays, afterMs, zone, shift).Some?
    ensures NextFrom(minute, weekdays, afterMs, zone, shift - back).Some?
    ensures NextFrom(minute, weekdays, afterMs, zone, shift) == TryDay(minute, weekdays, afterMs, zone, shift)
    decreases back
  {
    hide TryDay;
    if back > 0 {
      FoundFromStart(minute, weekdays, afterMs, zone, shift, back - 1);
    }
  }

  /** A zone whose offset changes once, as at the start or the end of summer time. */
  function Changing(before: int, after: int, change: int): Zone {
    at => if at < change then before else after
  }

  ghost predicate Reads(wall: Wall, zone: Zone, at: int) {
    at == Utc(wall) - zone(at)
  }

  /**
   * Around one change of offset, exactly: a day's answer is a later instant that reads the target and, seen from
   * before the change, the first one that does. There is none if the change leaves the target out, and where the
   * change repeats it the second reading is not taken for a new one.
   */
  lemma OneChangeAnswers(minute: int, weekdays: Option<set<nat>>, afterMs: int, a: int, b: int, change: int,
                         shift: nat, at: int)
    requires MinuteAligned(a) && MinuteAligned(b) && 0 <= minute < 1440
    ensures
      var zone := Changing(a, b, change);
      var target := Wall(ProbedDay(afterMs, shift, zone), minute);
      TryDay(minute, weekdays, afterMs, zone, shift) == Some(at) <==>
        && Allowed(weekdays, target.day) && at > afterMs && Reads(target, zone, at)
        && (afterMs < change ==> forall other :: Reads(target, zone, other) ==> at <= other)
  {
    hide WallAt, TzOffset, ProbedDay, Utc, Settle, Allowed, TryDay;
    var zone := Changing(a, b, change);
    var target := Wall(ProbedDay(afterMs, shift, zone), minute);
    SettledTryDay(minute, weekdays, afterMs, zone, shift);
    OffsetIsRead(afterMs, zone);
    OffsetIsRead(Utc(target) - a, zone);
    OffsetIsRead(Utc(target) - b, zone);
    SettlesOnASide(Utc(target), zone(afterMs), zone, a, b, change);
    FirstReading(target, a, b, change, afterMs, at);
  }

  /** Where all offsets are minute-aligned, a day's answer is where re-reading leads, if that reads the target. */
  lemma SettledTryDay(minute: int, weekdays: Option<set<nat>>, afterMs: int, zone: Zone, shift: nat)
    requires 0 <= minute < 1440 && forall t :: MinuteAligned(zone(t))
    ensures
      var target := Wall(ProbedDay(afterMs, shift, zone), minute);
      var found := Settle(Utc(target), Utc(target) - TzOffset(afterMs, zone), zone, 3);
      TryDay(minute, weekdays, afterMs, zone, shift) ==
        if Allowed(weekdays, target.day) && found > afterMs && Reads(target, zone, found) then Some(found) else None
  {
    hide WallAt, TzOffset, Weekday, ProbedDay, Utc, Settle, TryDay, Reads, MinuteAligned;
    var target := Wall(ProbedDay(afterMs, shift, zone), minute);
    var guess := Utc(target) - TzOffset(afterMs, zone);
    var found := Settle(Utc(target), guess, zone, 3);
    SettledIsMinuteAligned(target, guess, zone, 3);
    ReadsTarget(target, zone, found);
    TryDayUnfolds(minute, weekdays, afterMs, zone, shift, target, found);
  }

  lemma FirstReading(target: Wall, a: int, b: int, change: int, afterMs: int, at: int)
    ensures
      var zone := Changing(a, b, change);
      var early, late := Utc(target) - a, Utc(target) - b;
      var found :=
        if early < change && late >= change then Utc(target) - zone(afterMs)
        else if early < change then early
        else if late >= change then late
        else if zone(afterMs) == a then late else early;
      (found > afterMs && Reads(target, zone, found) && found == at) <==>
        && at > afterMs && Reads(target, zone, at)
        && (afterMs < change ==> forall other :: Reads(target, zone, other) ==> at <= other)
  {
    hide Utc;
    var zone := Changing(a, b, change);
    var early, late := Utc(target) - a, Utc(target) - b;
    assert Reads(target, zone, early) <==> early < change || a == b;
    assert Reads(target, zone, late) <==> late >= change || a == b;
    assert forall other :: Reads(target, zone, other) ==> other == early || other == late;
  }

  /** Where re-reading the offset leads to around one change, from the guess with either offset. */
  lemma SettlesOnASide(wallMs: int, guess: int, zone: Zone, a: int, b: int, change: int)
    requires guess == a || guess == b
    requires TzOffset(wallMs - a, zone) == if wallMs - a < change then a else b
    requires TzOffset(wallMs - b, zone) == if wallMs - b < change then a else b
    ensures
      var early, late := wallMs - a, wallMs - b;
      Settle(wallMs, wallMs - guess, zone, 3) ==
        if early < change && late >= change then wallMs - guess
        else if early < change then early
        else if late >= change then late
        else if guess == a then late else early
  {
    hide TzOffset;
    var c0 := wallMs - guess;
    var c1 := wallMs - TzOffset(c0, zone);
    var c2 := wallMs - TzOffset(c1, zone);
    assert Settle(wallMs, c0, zone, 3) == Settle(wallMs, c1, zone, 2) == Settle(wallMs, c2, zone, 1);
  }

  lemma ReadsTarget(target: Wall, zone: Zone, at: int)
    requires 0 <= target.minute < 1440 && MinuteAligned(zone(at)) && at % MINUTE_MS == 0
    ensures WallAt(at, zone) == target <==> Reads(target, zone, at)
  {
    if Reads(target, zone, at) {
      TargetIsRead(target.day, target.minute, zone, at);
    } else {
      WholeMinutes(at + zone(at), at / MINUTE_MS + zone(at) / MINUTE_MS);
    }
  }

  /** A wall time that the change repeats is answered once: asked for at its first reading, that day is over. */
  lemma RepeatedReadingFiresOnce(minute: int, weekdays: Option<set<nat>>, afterMs: int, a: int, b: int, change: int,
                                 shift: nat)
    requires MinuteAligned(a) && MinuteAligned(b) && 0 <= minute < 1440
    requires afterMs < change
    requires Reads(Wall(ProbedDay(afterMs, shift, Changing(a, b, change)), minute), Changing(a, b, change), afterMs)
    ensures TryDay(minute, weekdays, afterMs, Changing(a, b, change), shift) == None
  {
    hide TryDay, ProbedDay, Reads;
    var r := TryDay(minute, weekdays, afterMs, Changing(a, b, change), shift);
    if r.Some? {
      OneChangeAnswers(minute, weekdays, afterMs, a, b, change, shift, r.value);
    }
  }

  /** Summer time starts at 07:00 UTC of day 11: from day 10 at 09:00 the next daily 09:00 is an hour earlier in UTC. */
  lemma SpringExample()
    ensures
      var zone := Changing(-300 * MINUTE_MS, -240 * MINUTE_MS, 11 * DAY_MS + 420 * MINUTE_MS);
      var after := 10 * DAY_MS + 840 * MINUTE_MS;
      && WallAt(after, zone) == Wall(10, 540)
      && NextWall(540, None, after, zone) == Some(11 * DAY_MS + 780 * MINUTE_MS)
  {
    var a, b, change := -300 * MINUTE_MS, -240 * MINUTE_MS, 11 * DAY_MS + 420 * MINUTE_MS;
    var zone := Changing(a, b, change);
    var after := 10 * DAY_MS + 840 * MINUTE_MS;
    SpringDays();
    hide WallAt, ProbedDay, TryDay, NextFrom;
    var today := TryDay(540, None, after, zone, 0);
    if today.Some? {
      OneChangeAnswers(540, None, after, a, b, change, 0, today.value);
    }
    OneChangeAnswers(540, None, after, a, b, change, 1, 11 * DAY_MS + 780 * MINUTE_MS);
    NextIsFirst(540, None, after, zone, 1);
  }

  lemma SpringDays()
    ensures
      var zone := Changing(-300 * MINUTE_MS, -240 * MINUTE_MS, 11 * DAY_MS + 420 * MINUTE_MS);
      var after := 10 * DAY_MS + 840 * MINUTE_MS;
      WallAt(after, zone) == Wall(10, 540) && ProbedDay(after, 0, zone) == 10 && ProbedDay(after, 1, zone) == 11
  {}

  /** Asked for at the first instant of 1970 in UTC, a Thursday, each weekday's window lies on the right day. */
  lemma WeeklyFromEpoch(minute: int, weekday: nat)
    requires 0 < minute < 1440 && weekday < 7
    ensures
      var days := if weekday >= 4 then weekday - 4 else weekday + 3;
      NextWall(minute, Some({weekday}), 0, Fixed(0)) == Some(days * DAY_MS + minute * MINUTE_MS)
  {
    hide WallAt, TryDay, NextFrom, Fixed;
    var shift: nat := if weekday >= 4 then weekday - 4 else weekday + 3;
    forall s: nat | s <= shift
      ensures TryDay(minute, Some({weekday}), 0, Fixed(0), s)
           == if s == shift then Some(s * DAY_MS + minute * MINUTE_MS) else None
    {
      DayFromEpoch(minute, weekday, s);
    }
    NextIsFirst(minute, Some({weekday}), 0, Fixed(0), shift);
  }

  lemma DayFromEpoch(minute: int, weekday: nat, s: nat)
    requires 0 < minute < 1440
    ensures TryDay(minute, Some({weekday}), 0, Fixed(0), s)
         == if Weekday(s) == weekday then Some(s * DAY_MS + minute * MINUTE_MS) else None
  {
    assert WallAt(0, Fixed(0)).day == 0 && ProbeSlip(0) == 0;
    hide WallAt, TryDay, ProbeSlip, Weekday, Fixed;
    TryDayOfFixed(minute, Some({weekday}), 0, 0, s);
  }

  /** The answer is that of the first day that has one. */
  lemma {:induction false} NextIsFirst(minute: int, weekdays: Option<set<nat>>, afterMs: int, zone: Zone, shift: nat)
    requires shift <= LAST_SHIFT && TryDay(minute, weekdays, afterMs, zone, shift).Some?
    requires forall s: nat :: s < shift ==> TryDay(minute, weekdays, afterMs, zone, s).None?
    ensures NextWall(minute, weekdays, afterMs, zone) == TryDay(minute, weekdays, afterMs, zone, shift)
  {
    hide TryDay;
    NextSkipsEmptyDays(minute, weekdays, afterMs, zone, shift, shift);
  }

  lemma {:induction false} NextSkipsEmptyDays(minute: int, weekdays: Option<set<nat>>, afterMs: int, zone: Zone,
                                              shift: nat, back: nat)
    requires back <= shift <= LAST_SHIFT + 1
    requires forall s: nat :: s < shift ==> TryDay(minute, weekdays, afterMs, zone, s).None?
    ensures NextFrom(minute, weekdays, afterMs, zone, shift - back) == NextFrom(minute, weekdays, afterMs, zone, shift)
    decreases back
  {
    hide TryDay;
    if back > 0 {
      NextSkipsEmptyDays(minute, weekdays, afterMs, zone, shift, back - 1);
    }
  }

  /** A daily 09:00 window asked for at 01:00 of the same local date, thirteen hours east: the answer is a day late. */
  lemma LostTodayExample()
    ensures
      var z := 13 * 60 * MINUTE_MS;
      var after := 20 * DAY_MS + 60 * MINUTE_MS - z;
      && WallAt(after, Fixed(z)) == Wall(20, 60)
      && NextWall(540, None, after, Fixed(z)) == Some(21 * DAY_MS + 540 * MINUTE_MS - z)
      && IsOccurrence(540, None, Fixed(z), 20 * DAY_MS + 540 * MINUTE_MS - z)
  {
    var z := 13 * 60 * MINUTE_MS;
    var after := 20 * DAY_MS + 60 * MINUTE_MS - z;
    WallOfUtc(20, 60, z);
    assert ProbeSlip(z) == 1;
    hide WallAt, Weekday, TryDay, ProbeSlip, IsOccurrence;
    TryDayOfFixed(540, None, after, z, 0);
    UtcIsOccurrence(540, None, z, 20);
  }
}
