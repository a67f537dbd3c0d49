/** Cron expressions, the search for the next run, and `ScheduleService`. Time is counted in milliseconds, and in whole
    minutes, since the epoch; day of month and month come from a calendar that is left open. */
module Cron {
  import opened Wrappers

  /** A field after its text has been read: a star, a star with a step, or one or more values. A value that is no number
      matches nothing and is left out of `OneOf`; so does a step that is no number, read as 0. */
  datatype Field = Star | Every(step: int) | OneOf(values: seq<int>)

  /** Five fields, or an expression with another number of parts. */
  datatype CronExpression =
    | Fields(minute: Field, hour: Field, dom: Field, month: Field, dow: Field)
    | Malformed

  /** Day of month and month of the day with this number. */
  datatype Calendar = Calendar(dom: int -> int, month: int -> int)

  const HORIZON: nat := 60 * 24 * 366
  const WEEK: nat := 60 * 24 * 7

  predicate MatchField(f: Field, value: int) {
    match f
    case Star => true
    case Every(step) => step > 0 && value % step == 0
    case OneOf(values) => value in values
  }

  function MinuteOf(t: int): int {
    t % 60
  }

  function HourOf(t: int): int {
    t / 60 % 24
  }

  /** The epoch was a Thursday. */
  function WeekdayOf(t: int): int {
    (t / 1440 + 4) % 7
  }

  /** The expression matches minute `t`. */
  predicate MatchesCron(e: CronExpression, cal: Calendar, t: int) {
    match e
    case Malformed => false
    case Fields(minute, hour, dom, month, dow) =>
      && MatchField(minute, MinuteOf(t))
      && MatchField(hour, HourOf(t))
      && MatchField(dom, cal.dom(t / 1440))
      && MatchField(month, cal.month(t / 1440))
      && MatchField(dow, WeekdayOf(t))
  }

  /** The whole minute that a time falls into. */
  function ToMinute(ms: int): int {
    ms / 60000
  }

  function ToMs(t: int): int {
    t * 60000
  }

  /** `t` is the first of the `n` minutes after `m` that matches. */
  ghost predicate IsNext(e: CronExpression, cal: Calendar, m: int, n: nat, t: int) {
    && m < t <= m + n && MatchesCron(e, cal, t)
    && forall u | m < u < t :: !MatchesCron(e, cal, u)
  }

  /** The first of the `n` minutes after `m` that matches. */
  function Next(e: CronExpression, cal: Calendar, m: int, n: nat): (r: Option<int>)
    ensures r.Some? ==> IsNext(e, cal, m, n, r.value)
    ensures r.None? ==> forall t | m < t <= m + n :: !MatchesCron(e, cal, t)
  {
    if n == 0 then None
    else
      var earlier := Next(e, cal, m, n - 1);
      if earlier.Some? then earlier
      else if MatchesCron(e, cal, m + n) then Some(m + n) else None
  }

  // ----- what the fields mean

  /** `v` is one of 0, `step`, twice `step`, and so on. */
  predicate InSteps(v: int, step: int)
    requires step >= 1
    decreases v
  {
    v == 0 || (v >= step && InSteps(v - step, step))
  }

  /** A star allows every value, a step its multiples, a list its members; a step of zero or below allows nothing. */
  ghost predicate Allows(f: Field, v: int) {
    match f
    case Star => true
    case Every(step) => step >= 1 && InSteps(v, step)
    case OneOf(values) => exists i :: 0 <= i < |values| && values[i] == v
  }

  lemma {:induction false} StepsAreMultiples(v: int, step: int)
    requires v >= 0 && step >= 1
    ensures InSteps(v, step) <==> v % step == 0
    decreases v
  {
    if v >= step {
      StepsAreMultiples(v - step, step);
      LessOne(v, step);
    }
  }

  lemma LessOne(v: int, step: int)
    requires v >= step >= 1
    ensures (v - step) % step == v % step
  {
    var q, rest := v / step, v % step;
    assert v - step == (q - 1) * step + rest;
    RestIs(v - step, step, q - 1, rest);
  }

  lemma RestIs(v: int, step: int, q: int, rest: int)
    requires step >= 1 && v == q * step + rest && 0 <= rest < step
    ensures v % step == rest
  {
    var d := v / step - q;
    assert v % step - rest == -(d * step);
    if d != 0 {
      AtLeastOne(d, step);
    }
  }

  lemma ProductGrows(d: int, e: int, step: int)
    requires d <= e && step >= 0
    ensures d * step <= e * step
  {
  }

  lemma AtLeastOne(d: int, step: int)
    requires d != 0 && step >= 1
    ensures d * step >= step || d * step <= -step
  {
    if d >= 1 {
      ProductGrows(1, d, step);
    } else {
      ProductGrows(d, -1, step);
    }
  }

  lemma MatchIsAllow(f: Field, v: int)
    requires v >= 0
    ensures MatchField(f, v) <==> Allows(f, v)
  {
    if f.Every? && f.step >= 1 {
      StepsAreMultiples(v, f.step);
    }
  }

  /** When an expression matches: at minute `v` past hour `h` of a day, which is day `w` of the week counted from
      Sunday. Day number 0 was a Thursday, day 4. */
  lemma MatchesWhenAllowed(e: CronExpression, cal: Calendar, day: int, h: int, v: int, w: int)
    requires 0 <= h < 24 && 0 <= v < 60 && 0 <= w < 7 && (day + 4 - w) % 7 == 0
    requires cal.dom(day) >= 0 && cal.month(day) >= 0
    ensures MatchesCron(e, cal, 1440 * day + 60 * h + v) <==>
            && e.Fields?
            && Allows(e.minute, v) && Allows(e.hour, h) && Allows(e.dow, w)
            && Allows(e.dom, cal.dom(day)) && Allows(e.month, cal.month(day))
  {
    ClockAt(day, h, v, w);
    if e.Fields? {
      MatchIsAllow(e.minute, v);
      MatchIsAllow(e.hour, h);
      MatchIsAllow(e.dow, w);
      MatchIsAllow(e.dom, cal.dom(day));
      MatchIsAllow(e.month, cal.month(day));
    }
  }

  lemma WeekdayIs(day: int, w: int)
    requires 0 <= w < 7 && (day + 4 - w) % 7 == 0
    ensures (day + 4) % 7 == w
  {
  }

  lemma DivideClock(day: int, h: int, v: int)
    requires 0 <= h < 24 && 0 <= v < 60
    ensures var t := 1440 * day + 60 * h + v;
            t / 1440 == day && t / 60 == 24 * day + h && t % 60 == v
  {
  }

  lemma ClockAt(day: int, h: int, v: int, w: int)
    requires 0 <= h < 24 && 0 <= v < 60 && 0 <= w < 7 && (day + 4 - w) % 7 == 0
    ensures var t := 1440 * day + 60 * h + v;
            t / 1440 == day && MinuteOf(t) == v && HourOf(t) == h && WeekdayOf(t) == w
  {
    DivideClock(day, h, v);
    WeekdayIs(day, w);
  }

  /** `nextCronRun`: the least whole minute strictly after `afterMs` that matches, searched through 366 days; it throws
      exactly if none of those minutes matches. */
  method NextCronRun(e: CronExpression, cal: Calendar, afterMs: int) returns (r: Option<int>)
    ensures r == Next(e, cal, ToMinute(afterMs), HORIZON)
    ensures r.Some? ==> MatchesCron(e, cal, r.value) && 60000 * r.value > afterMs
    ensures r.Some? ==> forall t | afterMs < 60000 * t && t < r.value :: !MatchesCron(e, cal, t)
    ensures r.None? <==> forall t | afterMs < 60000 * t && t <= afterMs / 60000 + 527040 :: !MatchesCron(e, cal, t)
  {
    var cursor := ToMinute(afterMs);
    ghost var start := cursor;
    for i := 0 to HORIZON
      invariant cursor == start + i
      invariant forall t | start < t <= cursor :: !MatchesCron(e, cal, t)
    {
      cursor := cursor + 1;
      if MatchesCron(e, cal, cursor) {
        assert IsNext(e, cal, start, HORIZON, cursor);
        NextIsUnique(e, cal, start, HORIZON, cursor);
        return Some(cursor);
      }
    }
    return None;
  }

  lemma NextIsUnique(e: CronExpression, cal: Calendar, m: int, n: nat, t: int)
    requires IsNext(e, cal, m, n, t)
    ensures Next(e, cal, m, n) == Some(t)
  {
    var r := Next(e, cal, m, n);
    assert MatchesCron(e, cal, t);
    assert r.Some?;
    assert IsNext(e, cal, m, n, r.value);
  }

  // ----- every weekly expression has a next run

  /** Some minute of a day, some hour and some weekday match. */
  ghost predicate Satisfiable(e: CronExpression) {
    && e.Fields?
    && (exists v :: 0 <= v < 60 && MatchField(e.minute, v))
    && (exists v :: 0 <= v < 24 && MatchField(e.hour, v))
    && (exists v :: 0 <= v < 7 && MatchField(e.dow, v))
  }

  predicate Weekly(e: CronExpression) {
    e.Fields? && e.dom.Star? && e.month.Star?
  }

  /** The minute of the week that stands `a` days and some hours and minutes after a Thursday midnight. */
  lemma ClockOf(q: int, a: int, h: int, v: int)
    requires 0 <= a < 7 && 0 <= h < 24 && 0 <= v < 60
    ensures var t := 10080 * q + 1440 * a + 60 * h + v;
            MinuteOf(t) == v && HourOf(t) == h && WeekdayOf(t) == (a + 4) % 7
  {
    var t := 10080 * q + 1440 * a + 60 * h + v;
    assert t / 60 == 168 * q + 24 * a + h;
    assert t / 1440 == 7 * q + a;
  }

  /** Within a week from any time there is a minute with a given time of day and weekday. */
  lemma OnceAWeek(m: int, v: int, h: int, d: int) returns (t: int)
    requires 0 <= v < 60 && 0 <= h < 24 && 0 <= d < 7
    ensures m < t <= m + WEEK && MinuteOf(t) == v && HourOf(t) == h && WeekdayOf(t) == d
  {
    var a := (d + 3) % 7;
    var x := 1440 * a + 60 * h + v;
    var q := (m - x) / 10080 + 1;
    t := 10080 * q + x;
    ClockOf(q, a, h, v);
  }

  /** With day of month and month left open, the next run exists exactly if the other fields are satisfiable, and then
      it is at most a week away. */
  lemma WeeklyHasNext(e: CronExpression, cal: Calendar, m: int)
    requires Weekly(e)
    ensures Next(e, cal, m, HORIZON).Some? <==> Satisfiable(e)
    ensures Satisfiable(e) ==> Next(e, cal, m, HORIZON).value <= m + 10080
  {
    if Satisfiable(e) {
      var v :| 0 <= v < 60 && MatchField(e.minute, v);
      var h :| 0 <= h < 24 && MatchField(e.hour, h);
      var d :| 0 <= d < 7 && MatchField(e.dow, d);
      var t := OnceAWeek(m, v, h, d);
      assert MatchesCron(e, cal, t);
      var r := Next(e, cal, m, HORIZON);
      assert r.Some? && IsNext(e, cal, m, HORIZON, r.value);
    }
    if Next(e, cal, m, HORIZON).Some? {
      var t := Next(e, cal, m, HORIZON).value;
      assert MatchField(e.minute, MinuteOf(t)) && MatchField(e.hour, HourOf(t)) && MatchField(e.dow, WeekdayOf(t));
    }
  }

  ghost predicate OnSteps(a: int, b: int, c: int, t: int)
    requires a >= 1 && b >= 1 && c >= 1
  {
    t % 60 % a == 0 && t / 60 % 24 % b == 0 && (t / 1440 + 4) % 7 % c == 0
  }

  /** The next run of steps in the minute, the hour and the weekday field, by arithmetic on minutes; it exists exactly
      if all three steps are positive. */
  lemma StepsRun(a: int, b: int, c: int, cal: Calendar, m: int)
    ensures var r := Next(Fields(Every(a), Every(b), Star, Star, Every(c)), cal, m, HORIZON);
            && (r.Some? <==> a >= 1 && b >= 1 && c >= 1)
            && (r.Some? ==> m < r.value <= m + 10080 && OnSteps(a, b, c, r.value))
            && (r.Some? ==> forall u | m < u < r.value :: !OnSteps(a, b, c, u))
  {
    var e := Fields(Every(a), Every(b), Star, Star, Every(c));
    WeeklyHasNext(e, cal, m);
    if a >= 1 && b >= 1 && c >= 1 {
      assert MatchField(Every(a), 0) && MatchField(Every(b), 0) && MatchField(Every(c), 0);
      forall u ensures MatchesCron(e, cal, u) <==> OnSteps(a, b, c, u) {
      }
    }
  }

  ghost predicate OnLists(a: seq<int>, b: seq<int>, c: seq<int>, t: int) {
    t % 60 in a && t / 60 % 24 in b && (t / 1440 + 4) % 7 in c
  }

  /** The same for lists of values, which may be of any length; the next run exists exactly if each list has a value in
      range. */
  lemma ListsRun(a: seq<int>, b: seq<int>, c: seq<int>, cal: Calendar, m: int)
    ensures var r := Next(Fields(OneOf(a), OneOf(b), Star, Star, OneOf(c)), cal, m, HORIZON);
            && (r.Some? <==>
                  (exists v :: v in a && 0 <= v < 60) && (exists v :: v in b && 0 <= v < 24)
                  && exists v :: v in c && 0 <= v < 7)
            && (r.Some? ==> m < r.value <= m + 10080 && OnLists(a, b, c, r.value))
            && (r.Some? ==> forall u | m < u < r.value :: !OnLists(a, b, c, u))
  {
    var e := Fields(OneOf(a), OneOf(b), Star, Star, OneOf(c));
    WeeklyHasNext(e, cal, m);
    forall f: seq<int>, v ensures MatchField(OneOf(f), v) <==> v in f {
    }
    forall u ensures MatchesCron(e, cal, u) <==> OnLists(a, b, c, u) {
    }
  }

  // ----- schedules

  datatype CronSchedule = CronSchedule(
    id: string,
    expression: CronExpression,
    enabled: bool,
    lastTriggeredAt: Option<int>,  // milliseconds
    nextRunAt: Option<int>)        // whole minutes

  /** The schedule is to be triggered at time `now`. */
  predicate Due(s: CronSchedule, cal: Calendar, now: int) {
    && s.enabled
    && if s.nextRunAt.None? then MatchesCron(s.expression, cal, ToMinute(now)) else ToMs(s.nextRunAt.value) <= now
  }

  /** The schedule after a trigger; `None` when no next run can be found. */
  function Triggered(s: CronSchedule, cal: Calendar, now: int): Option<CronSchedule> {
    var next := Next(s.expression, cal, ToMinute(now), HORIZON);
    if next.None? then None else Some(s.(lastTriggeredAt := Some(now), nextRunAt := next))
  }

  class ScheduleService {
    const calendar: Calendar
    var store: map<string, CronSchedule>

    constructor (calendar: Calendar)
      ensures this.calendar == calendar && store == map[]
    {
      this.calendar, store := calendar, map[];
    }

    /** A schedule is stored only if a next run exists, and it is not due before that run. The id stands for a freshly
        drawn random one. */
    method Create(id: string, expression: CronExpression, now: int) returns (r: Option<CronSchedule>)
      modifies this`store
      ensures r.Some? <==> Next(expression, calendar, ToMinute(now), HORIZON).Some?
      ensures r.None? ==> store == old(store)
      ensures r.Some? ==> store == old(store)[id := r.value]
      ensures r.Some? ==>
                r.value == CronSchedule(id, expression, true, None, Next(expression, calendar, now / 60000, 527040))
      ensures r.Some? ==> forall t | now <= t < ToMs(r.value.nextRunAt.value) :: !Due(r.value, calendar, t)
    {
      var next := NextCronRun(expression, calendar, now);
      if next.None? {
        return None;
      }
      var schedule := CronSchedule(id, expression, true, None, next);
      store := store[id := schedule];
      return Some(schedule);
    }

    method DueSchedules(now: int) returns (due: set<CronSchedule>)
      ensures forall s :: s in due <==>
                && s in store.Values && s.enabled
                && match s.nextRunAt
                   case None => MatchesCron(s.expression, calendar, now / 60000)
                   case Some(next) => 60000 * next <= now
    {
      due := set s | s in store.Values && Due(s, calendar, now);
    }

    /** When it does not throw, the schedule is not due again within the minute of the trigger. */
    method MarkTriggered(s: CronSchedule, now: int) returns (r: Option<CronSchedule>)
      modifies this`store
      ensures r == Triggered(s, calendar, now)
      ensures var next := Next(s.expression, calendar, now / 60000, 527040);
              r == if next.None? then None else Some(s.(lastTriggeredAt := Some(now), nextRunAt := next))
      ensures store == if r.Some? then old(store)[s.id := r.value] else old(store)
      ensures r.Some? ==> forall t | ToMinute(t) <= ToMinute(now) :: !Due(r.value, calendar, t)
    {
      var next := NextCronRun(s.expression, calendar, now);
      if next.None? {
        return None;
      }
      var updated := s.(lastTriggeredAt := Some(now), nextRunAt := next);
      store := store[s.id := updated];
      return Some(updated);
    }

    method Disable(id: string) returns (ok: bool)
      modifies this`store
      ensures ok <==> id in old(store)
      ensures store == if ok then old(store)[id := old(store)[id].(enabled := false)] else old(store)
      ensures ok ==> forall now :: !Due(store[id], calendar, now)
    {
      if id !in store {
        return false;
      }
      store := store[id := store[id].(enabled := false)];
      return true;
    }
  }

  // ----- polling a schedule

  /** The minutes at which a schedule fires when it is looked at at these times and marked after each firing. A trigger
      that throws leaves the schedule as it was. */
  function Fires(s: CronSchedule, cal: Calendar, times: seq<int>): seq<int>
    decreases |times|
  {
    if times == [] then []
    else if Due(s, cal, times[0]) then
      var after := Triggered(s, cal, times[0]);
      [ToMinute(times[0])] + Fires(if after.Some? then after.value else s, cal, times[1..])
    else Fires(s, cal, times[1..])
  }

  ghost predicate Monotone(times: seq<int>) {
    forall i, j | 0 <= i < j < |times| :: times[i] <= times[j]
  }

  ghost predicate Increasing(s: seq<int>) {
    forall i, j | 0 <= i < j < |s| :: s[i] < s[j]
  }

  /** No minute that is polled more than once is exhausted: from each of them a next run can be found. */
  ghost predicate RepeatsCanGoOn(e: CronExpression, cal: Calendar, times: seq<int>) {
    forall i, j | 0 <= i < j < |times| && ToMinute(times[i]) == ToMinute(times[j]) ::
      Next(e, cal, ToMinute(times[i]), HORIZON).Some?
  }

  /** The schedule is enabled and waits for the first match after minute `origin`, as creating and triggering leave
      it. */
  ghost predicate Planned(s: CronSchedule, cal: Calendar, origin: int) {
    s.enabled && s.nextRunAt.Some? && IsNext(s.expression, cal, origin, HORIZON, s.nextRunAt.value)
  }

  lemma DueByMinute(s: CronSchedule, cal: Calendar, now: int)
    requires s.nextRunAt.Some?
    ensures Due(s, cal, now) <==> s.enabled && s.nextRunAt.value <= ToMinute(now)
  {
  }

  lemma IncreasingCons(x: int, s: seq<int>)
    requires Increasing(s) && forall m | m in s :: m > x
    ensures Increasing([x] + s)
  {
    forall i, j | 0 <= i < j < |[x] + s| ensures ([x] + s)[i] < ([x] + s)[j] {
      assert ([x] + s)[j] == s[j - 1] && s[j - 1] in s;
    }
  }

  lemma FirstFires(s: CronSchedule, cal: Calendar, times: seq<int>)
    requires times != [] && Due(s, cal, times[0]) && Triggered(s, cal, times[0]).Some?
    ensures Fires(s, cal, times) == [ToMinute(times[0])] + Fires(Triggered(s, cal, times[0]).value, cal, times[1..])
  {
  }

  /** A trigger that throws changes nothing. */
  lemma FiresUnchanged(s: CronSchedule, cal: Calendar, times: seq<int>)
    requires times != [] && Due(s, cal, times[0]) && Triggered(s, cal, times[0]).None?
    ensures Fires(s, cal, times) == [ToMinute(times[0])] + Fires(s, cal, times[1..])
  {
  }

  /** Every firing is at a poll, at or after the run it was scheduled for. */
  lemma {:induction false} FiresAtPolls(s: CronSchedule, cal: Calendar, times: seq<int>)
    ensures forall m | m in Fires(s, cal, times) :: exists t :: t in times && ToMinute(t) == m
    ensures s.nextRunAt.Some? ==> forall m | m in Fires(s, cal, times) :: m >= s.nextRunAt.value
    decreases |times|
  {
    if times != [] {
      var now, rest := times[0], times[1..];
      if s.nextRunAt.Some? {
        DueByMinute(s, cal, now);
      }
      assert now in times;
      var after := if Due(s, cal, now) && Triggered(s, cal, now).Some? then Triggered(s, cal, now).value else s;
      assert Fires(s, cal, times) == (if Due(s, cal, now) then [ToMinute(now)] else []) + Fires(after, cal, rest);
      FiresAtPolls(after, cal, rest);
      forall m | m in Fires(after, cal, rest) ensures exists t :: t in times && ToMinute(t) == m {
        var t :| t in rest && ToMinute(t) == m;
        assert t in times;
      }
    }
  }

  /** A schedule that was planned at or before an exhausted minute is due in it. */
  lemma ExhaustedIsDue(s: CronSchedule, cal: Calendar, origin: int, now: int)
    requires Planned(s, cal, origin) && origin <= ToMinute(now)
    requires Next(s.expression, cal, ToMinute(now), HORIZON).None?
    ensures Due(s, cal, now)
  {
    DueByMinute(s, cal, now);
  }

  lemma MonotoneRest(times: seq<int>)
    requires times != [] && Monotone(times)
    ensures Monotone(times[1..])
    ensures forall t | t in times[1..] :: ToMinute(times[0]) <= ToMinute(t)
  {
    var rest := times[1..];
    forall t | t in rest ensures ToMinute(times[0]) <= ToMinute(t) {
      var i :| 0 <= i < |rest| && rest[i] == t;
      assert times[i + 1] == t;
    }
  }

  /** The first poll matters to the condition only if its minute is exhausted and polled again. */
  lemma RepeatsStep(e: CronExpression, cal: Calendar, times: seq<int>)
    requires times != []
    ensures RepeatsCanGoOn(e, cal, times) <==>
            && RepeatsCanGoOn(e, cal, times[1..])
            && (Next(e, cal, ToMinute(times[0]), HORIZON).Some?
                || forall t | t in times[1..] :: ToMinute(t) != ToMinute(times[0]))
  {
    var rest, p := times[1..], ToMinute(times[0]);
    if RepeatsCanGoOn(e, cal, times) {
      forall i, j | 0 <= i < j < |rest| && ToMinute(rest[i]) == ToMinute(rest[j])
        ensures Next(e, cal, ToMinute(rest[i]), HORIZON).Some?
      {
        assert times[i + 1] == rest[i] && times[j + 1] == rest[j];
      }
      forall t | t in rest ensures Next(e, cal, p, HORIZON).Some? || ToMinute(t) != p {
        var j :| 0 <= j < |rest| && rest[j] == t;
        assert times[j + 1] == t;
      }
    } else {
      var i, j :| 0 <= i < j < |times| && ToMinute(times[i]) == ToMinute(times[j])
                  && Next(e, cal, ToMinute(times[i]), HORIZON).None?;
      assert times[j] == rest[j - 1] && rest[j - 1] in rest;
      assert i > 0 ==> times[i] == rest[i - 1];
    }
  }

  /** However often and whenever any schedule is polled, each minute fires at most once as long as a next run can be
      found from every minute that is polled again. */
  lemma {:induction false} NoMinuteTwice(s: CronSchedule, cal: Calendar, times: seq<int>)
    requires Monotone(times) && RepeatsCanGoOn(s.expression, cal, times)
    ensures Increasing(Fires(s, cal, times))
    decreases |times|
  {
    if times != [] {
      var now, rest := times[0], times[1..];
      var p := ToMinute(now);
      MonotoneRest(times);
      RepeatsStep(s.expression, cal, times);
      if !Due(s, cal, now) {
        NoMinuteTwice(s, cal, rest);
      } else if Triggered(s, cal, now).Some? {
        var after := Triggered(s, cal, now).value;
        FirstFires(s, cal, times);
        NoMinuteTwice(after, cal, rest);
        FiresAtPolls(after, cal, rest);
        IncreasingCons(p, Fires(after, cal, rest));
      } else {
        FiresUnchanged(s, cal, times);
        NoMinuteTwice(s, cal, rest);
        FiresAtPolls(s, cal, rest);
        forall m | m in Fires(s, cal, rest) ensures m > p {
          var t :| t in rest && ToMinute(t) == m;
        }
        IncreasingCons(p, Fires(s, cal, rest));
      }
    }
  }

  /** Exactly when no minute is due twice: a planned schedule fires at most once in each minute if and only if no minute
      that is polled again is one from which no next run can be found. */
  lemma {:induction false} NoMinuteTwiceExactly(s: CronSchedule, cal: Calendar, origin: int, times: seq<int>)
    requires Planned(s, cal, origin) && Monotone(times) && (times != [] ==> origin <= ToMinute(times[0]))
    ensures Increasing(Fires(s, cal, times)) <==> RepeatsCanGoOn(s.expression, cal, times)
    decreases |times|
  {
    if RepeatsCanGoOn(s.expression, cal, times) {
      NoMinuteTwice(s, cal, times);
    } else {
      var now, rest := times[0], times[1..];
      var p := ToMinute(now);
      MonotoneRest(times);
      RepeatsStep(s.expression, cal, times);
      if Next(s.expression, cal, p, HORIZON).None? {
        ExhaustedIsDue(s, cal, origin, now);
        FiresUnchanged(s, cal, times);
        if ToMinute(rest[0]) == p {
          FiresAgain(s, cal, p, rest);
        } else {
          LaterThan(p, rest);
          NoMinuteTwiceExactly(s, cal, origin, rest);
          TailSpoils(p, Fires(s, cal, rest));
        }
      } else if Due(s, cal, now) {
        var after := Triggered(s, cal, now).value;
        FirstFires(s, cal, times);
        NoMinuteTwiceExactly(after, cal, p, rest);
        TailSpoils(p, Fires(after, cal, rest));
      } else {
        NoMinuteTwiceExactly(s, cal, origin, rest);
      }
    }
  }

  lemma TailSpoils(x: int, s: seq<int>)
    requires !Increasing(s)
    ensures !Increasing([x] + s)
  {
    var i, j :| 0 <= i < j < |s| && s[i] >= s[j];
    assert ([x] + s)[i + 1] == s[i] && ([x] + s)[j + 1] == s[j];
  }

  lemma LaterThan(p: int, times: seq<int>)
    requires Monotone(times) && (times != [] ==> ToMinute(times[0]) > p)
    ensures forall t | t in times :: ToMinute(t) > p
  {
    if times != [] {
      MonotoneRest(times);
      assert times == [times[0]] + times[1..];
    }
  }

  /** A schedule still due in the minute it has just fired in fires in it again. */
  lemma FiresAgain(s: CronSchedule, cal: Calendar, p: int, times: seq<int>)
    requires times != [] && s.nextRunAt.Some? && s.enabled && s.nextRunAt.value <= p == ToMinute(times[0])
    ensures !Increasing([p] + Fires(s, cal, times))
  {
    DueByMinute(s, cal, times[0]);
    var fires := Fires(s, cal, times);
    assert ([p] + fires)[0] == p && ([p] + fires)[1] == fires[0] == p;
  }

  /** Polled twice at one moment, a due schedule fires once exactly if a next run can be found: a trigger that throws
      leaves it due. */
  lemma FiresTwiceIfExhausted(s: CronSchedule, cal: Calendar, now: int)
    requires Due(s, cal, now)
    ensures Fires(s, cal, [now, now]) ==
            if Next(s.expression, cal, ToMinute(now), HORIZON).Some? then [ToMinute(now)]
            else [ToMinute(now), ToMinute(now)]
  {
    var times := [now, now];
    assert times[1..] == [now] && [now][1..] == [];
    var after := Triggered(s, cal, now);
    var next := if after.Some? then after.value else s;
    if after.Some? {
      DueByMinute(next, cal, now);
    }
    assert Fires(next, cal, []) == [] && [ToMinute(now)] + [] == [ToMinute(now)];
    assert Fires(next, cal, [now]) == if Due(next, cal, now) then [ToMinute(now)] + [] else [];
    assert Fires(s, cal, times) == [ToMinute(now)] + Fires(next, cal, [now]);
  }

  // ----- a schedule with a last run

  /** At midnight on 29 February. */
  const LEAP_DAY := Fields(OneOf([0]), OneOf([0]), OneOf([29]), OneOf([2]), Star)

  /** `day` is a 29 February, and there is no other for a year before and after it. */
  ghost predicate LoneLeapDay(cal: Calendar, day: int) {
    && cal.dom(day) == 29 && cal.month(day) == 2
    && forall d | day - 366 <= d <= day + 366 && d != day :: cal.dom(d) != 29 || cal.month(d) != 2
  }

  lemma OnlyMidnight(t: int)
    requires MinuteOf(t) == 0 && HourOf(t) == 0
    ensures t == 1440 * (t / 1440)
  {
  }

  /** In any calendar with a leap day, a schedule for 29 February that was created within a year before it is due on
      it; no next run can be found then, and every poll on that minute fires. */
  lemma LeapDayFiresTwice(cal: Calendar, day: int, id: string, origin: int)
    requires LoneLeapDay(cal, day) && 1440 * day - HORIZON <= origin < 1440 * day
    ensures Next(LEAP_DAY, cal, origin, HORIZON) == Some(1440 * day) && Next(LEAP_DAY, cal, 1440 * day, HORIZON) == None
    ensures var s := CronSchedule(id, LEAP_DAY, true, None, Some(1440 * day));
            var now := ToMs(1440 * day);
            Planned(s, cal, origin) && Fires(s, cal, [now, now]) == [1440 * day, 1440 * day]
  {
    var t := 1440 * day;
    assert MinuteOf(t) == 0 && HourOf(t) == 0 && t / 1440 == day;
    forall u | origin < u <= t + HORIZON && MatchesCron(LEAP_DAY, cal, u) ensures u == t {
      OnlyMidnight(u);
      assert day - 366 <= u / 1440 <= day + 366;
    }
    assert MatchesCron(LEAP_DAY, cal, t);
    NextIsUnique(LEAP_DAY, cal, origin, HORIZON, t);
    var later := Next(LEAP_DAY, cal, t, HORIZON);
    assert later.Some? ==> IsNext(LEAP_DAY, cal, t, HORIZON, later.value);
    var s := CronSchedule(id, LEAP_DAY, true, None, Some(t));
    var now := ToMs(t);
    assert Due(s, cal, now) && [now, now][1..] == [now] && [now][1..] == [];
    FiresUnchanged(s, cal, [now, now]);
    FiresUnchanged(s, cal, [now]);
    assert Fires(s, cal, []) == [];
  }

  /** A calendar with a 29 February every four years; the epoch's first was on day 789, in 1972. */
  const JULIAN: Calendar :=
    Calendar((d: int) => if d % 1461 == 789 then 29 else 1, (d: int) => if d % 1461 == 789 then 2 else 1)

  lemma JulianHasLeapDays()
    ensures LoneLeapDay(JULIAN, 789)
  {
  }

  /** Polls at least once a minute. */
  ghost predicate EveryMinute(times: seq<int>) {
    forall i | 0 < i < |times| :: ToMinute(times[i - 1]) <= ToMinute(times[i]) <= ToMinute(times[i - 1]) + 1
  }

  /** The minute of the last poll. */
  function LastMinute(times: seq<int>): int
    requires times != []
  {
    ToMinute(times[|times| - 1])
  }

  /** A next run can be found from every minute polled before minute `last`. */
  ghost predicate CanGoOn(e: CronExpression, cal: Calendar, times: seq<int>, last: int) {
    forall now | now in times && ToMinute(now) < last :: Next(e, cal, ToMinute(now), HORIZON).Some?
  }

  /** The schedule fires in exactly the matching minutes after `m`, up to minute `last`. */
  ghost predicate FiresMatches(s: CronSchedule, cal: Calendar, times: seq<int>, m: int, last: int) {
    forall t :: t in Fires(s, cal, times) <==> m < t <= last && MatchesCron(s.expression, cal, t)
  }

  lemma CanGoOnStep(e: CronExpression, cal: Calendar, times: seq<int>, last: int)
    requires times != []
    ensures CanGoOn(e, cal, times, last) <==>
            && CanGoOn(e, cal, times[1..], last)
            && (ToMinute(times[0]) < last ==> Next(e, cal, ToMinute(times[0]), HORIZON).Some?)
  {
    assert forall now :: now in times <==> now == times[0] || now in times[1..];
  }

  /** After a poll that does not fire the matches still to come are the same, and after one that does one is done. */
  lemma MatchesStep(s: CronSchedule, cal: Calendar, times: seq<int>, m: int, last: int)
    requires Planned(s, cal, m) && times != [] && m <= ToMinute(times[0]) <= s.nextRunAt.value
    requires ToMinute(times[0]) <= last
    requires Due(s, cal, times[0]) ==> Triggered(s, cal, times[0]).Some?
    ensures var p, rest := ToMinute(times[0]), times[1..];
            FiresMatches(s, cal, times, m, last) <==>
            if Due(s, cal, times[0]) then FiresMatches(Triggered(s, cal, times[0]).value, cal, rest, p, last)
            else FiresMatches(s, cal, rest, m, last)
  {
    var p, rest := ToMinute(times[0]), times[1..];
    DueByMinute(s, cal, times[0]);
    if Due(s, cal, times[0]) {
      var after := Triggered(s, cal, times[0]).value;
      FirstFires(s, cal, times);
      FiresAtPolls(after, cal, rest);
      var fires := Fires(after, cal, rest);
      forall t ensures t in Fires(s, cal, times) <==> t == p || t in fires {
        assert Fires(s, cal, times) == [p] + fires;
      }
      assert MatchesCron(s.expression, cal, p) && m < p;
    }
  }

  /** Polled at least once a minute, a planned schedule fires in exactly the matching minutes since its last trigger (or
      its creation) at minute `m`, none missed and none made up, if and only if the next run can be found from every
      polled minute but the last. */
  lemma {:induction false} FiresExactlyMatches(s: CronSchedule, cal: Calendar, times: seq<int>, m: int)
    requires Planned(s, cal, m) && times != [] && EveryMinute(times)
    requires m <= ToMinute(times[0]) <= s.nextRunAt.value
    ensures FiresMatches(s, cal, times, m, LastMinute(times)) <==> CanGoOn(s.expression, cal, times, LastMinute(times))
    decreases |times|
  {
    var now, rest, last := times[0], times[1..], LastMinute(times);
    var p := ToMinute(now);
    DueByMinute(s, cal, now);
    LastIsLatest(times);
    var next := Next(s.expression, cal, p, HORIZON);
    CanGoOnStep(s.expression, cal, times, last);
    if next.None? {
      ExhaustedIsDue(s, cal, m, now);
      if p == last {
        AllInOneMinute(times);
        LastFires(s, cal, times, m, p);
      } else {
        FiresNextMinute(s, cal, times, p);
        assert !MatchesCron(s.expression, cal, p + 1);
      }
    } else if rest == [] {
      OnePoll(s, cal, now, m);
      assert times == [now];
    } else {
      LaterPolls(times);
      MatchesStep(s, cal, times, m, last);
      if Due(s, cal, now) {
        FiresExactlyMatches(Triggered(s, cal, now).value, cal, rest, p);
      } else {
        FiresExactlyMatches(s, cal, rest, m);
      }
    }
  }

  lemma LastFires(s: CronSchedule, cal: Calendar, times: seq<int>, m: int, p: int)
    requires Planned(s, cal, m) && times != [] && m <= p == s.nextRunAt.value
    requires forall t | t in times :: ToMinute(t) == p
    ensures FiresMatches(s, cal, times, m, p) && CanGoOn(s.expression, cal, times, p)
  {
    assert times[0] in times;
    DueByMinute(s, cal, times[0]);
    FiresAtPolls(s, cal, times);
    assert Fires(s, cal, times)[0] == p;
  }

  lemma OnePoll(s: CronSchedule, cal: Calendar, now: int, m: int)
    requires Planned(s, cal, m) && m <= ToMinute(now) <= s.nextRunAt.value
    ensures FiresMatches(s, cal, [now], m, ToMinute(now))
  {
    DueByMinute(s, cal, now);
    assert [now][1..] == [] && forall after :: Fires(after, cal, []) == [];
  }

  /** Still due in an exhausted minute, a schedule also fires in the next, though nothing matches there. */
  lemma {:induction false} FiresNextMinute(s: CronSchedule, cal: Calendar, times: seq<int>, p: int)
    requires s.enabled && s.nextRunAt.Some? && s.nextRunAt.value <= p && times != [] && EveryMinute(times)
    requires ToMinute(times[0]) == p < ToMinute(times[|times| - 1])
    requires Next(s.expression, cal, p, HORIZON).None?
    ensures p + 1 in Fires(s, cal, times)
    decreases |times|
  {
    var rest := times[1..];
    DueByMinute(s, cal, times[0]);
    FiresUnchanged(s, cal, times);
    LaterPolls(times);
    if ToMinute(rest[0]) == p {
      FiresNextMinute(s, cal, rest, p);
    } else {
      DueByMinute(s, cal, rest[0]);
      assert Fires(s, cal, rest)[0] == p + 1;
    }
  }

  lemma {:induction false} AllInOneMinute(times: seq<int>)
    requires times != [] && EveryMinute(times) && ToMinute(times[0]) == ToMinute(times[|times| - 1])
    ensures forall t | t in times :: ToMinute(t) == ToMinute(times[0])
  {
    forall t | t in times ensures ToMinute(t) == ToMinute(times[0]) {
      var i :| 0 <= i < |times| && times[i] == t;
      LastIsLatest(times[..i + 1]);
      LastIsLatest(times[i..]);
    }
  }

  lemma LaterPolls(times: seq<int>)
    requires |times| > 1 && EveryMinute(times)
    ensures EveryMinute(times[1..]) && LastMinute(times[1..]) == LastMinute(times)
    ensures ToMinute(times[0]) <= ToMinute(times[1]) <= ToMinute(times[0]) + 1
  {
    var rest := times[1..];
    forall i | 0 < i < |rest| ensures ToMinute(rest[i - 1]) <= ToMinute(rest[i]) <= ToMinute(rest[i - 1]) + 1 {
      assert rest[i] == times[i + 1] && rest[i - 1] == times[(i + 1) - 1];
    }
    assert times[1 - 1] == times[0];
  }

  lemma {:induction false} LastIsLatest(times: seq<int>)
    requires times != [] && EveryMinute(times)
    ensures ToMinute(times[0]) <= ToMinute(times[|times| - 1])
    decreases |times|
  {
    if |times| > 1 {
      LastIsLatest(times[..|times| - 1]);
    }
  }
}
