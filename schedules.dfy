/**
 * The schedule matcher of the mock trip providers: how long and how
 * expensive a trip is, and which (departure, arrival) pairs a provider
 * offers inside a requested time window under each of its three schedule
 * policies. Distances are whole kilometres handed in by the caller.
 */
module Schedules {
  import opened Time
  import opened Collections
  import opened Commitments

  /** Kilometres per hour of each transport type. */
  function Speed(t: TransportType): (kmh: int)
    ensures kmh > 0
  {
    match t
    case AIRLINER => 750
    case BIKE => 12
    case CAR => 50
    case FERRY => 25
    case TAXI => 40
    case TRAIN => 60
  }

  /** Price per kilometre of each transport type. */
  function UnitCost(t: TransportType): (c: int)
    ensures c > 0
  {
    match t
    case AIRLINER => 3
    case BIKE => 1
    case CAR => 8
    case FERRY => 4
    case TAXI => 12
    case TRAIN => 3
  }

  /**
   * `tripDuration`: the trip takes one hour more than the complete hours the
   * distance needs at the transport's speed, so the distance is covered
   * within the duration but not within one hour less.
   */
  function TripDuration(distance: nat, t: TransportType): (hours: int)
    ensures hours >= 1
    ensures (hours - 1) * Speed(t) <= distance < hours * Speed(t)
  {
    var s := Speed(t);
    assert distance == (distance / s) * s + distance % s;
    1 + distance / s
  }

  /** A longer trip never takes less time. */
  lemma TripDurationMonotone(d1: nat, d2: nat, t: TransportType)
    requires d1 <= d2
    ensures TripDuration(d1, t) <= TripDuration(d2, t)
  {
    var h1, h2 := TripDuration(d1, t), TripDuration(d2, t);
    assert (h1 - 1) * Speed(t) < h2 * Speed(t);
  }

  /** `tripPrice`: one unit plus the distance at the transport's unit cost. */
  function TripPrice(distance: nat, t: TransportType): (price: int)
    ensures price >= 1 + distance
    ensures price - 1 == distance * UnitCost(t)
  {
    1 + distance * UnitCost(t)
  }

  /** A longer trip never costs less, and a strictly longer one costs strictly more. */
  lemma TripPriceMonotone(d1: nat, d2: nat, t: TransportType)
    requires d1 <= d2
    ensures TripPrice(d1, t) <= TripPrice(d2, t)
    ensures d1 < d2 ==> TripPrice(d1, t) < TripPrice(d2, t)
  {
    assert TripPrice(d2, t) - TripPrice(d1, t) == (d2 - d1) * UnitCost(t);
  }

  /** A candidate trip: departure and arrival instants. */
  datatype Slot = Slot(departure: int, arrival: int)

  /** The three schedule policies of the mock providers. */
  datatype Schedule =
    | FreeSchedule
    | StrictSchedule(hours: seq<int>)
    | BusinessHoursSchedule(openAt: int, closeAt: int)

  /** Departure hours of a strict schedule: at least one, each a valid hour of the day. */
  predicate ValidHours(hours: seq<int>) {
    |hours| > 0 && forall i :: 0 <= i < |hours| ==> 0 <= hours[i] < 24
  }

  /** Opening hours: both valid hours of the day, opening before closing. */
  predicate ValidBusinessHours(openAt: int, closeAt: int) {
    0 <= openAt < closeAt < 24
  }

  predicate ValidSchedule(s: Schedule) {
    match s
    case FreeSchedule => true
    case StrictSchedule(hours) => ValidHours(hours)
    case BusinessHoursSchedule(openAt, closeAt) => ValidBusinessHours(openAt, closeAt)
  }

  /** Every slot lies inside the window and lasts at least `duration` hours. */
  predicate AllInWindow(slots: seq<Slot>, departAfter: int, arriveBefore: int, duration: int) {
    forall i :: 0 <= i < |slots| ==>
      departAfter <= slots[i].departure
      && slots[i].arrival <= arriveBefore
      && slots[i].departure + duration * HOUR <= slots[i].arrival
  }

  // ---------------------------------------------------------------------------
  // Free schedule (available around the clock)

  /**
   * `FreeSchedule.departuresAndArrivals`: nothing when the window is shorter
   * than the trip, the window itself when it has exactly the trip's whole
   * hours, and otherwise the two marginal trips: leave at once, or arrive
   * at the last moment.
   */
  function FreeSlots(departAfter: int, arriveBefore: int, duration: int): (slots: seq<Slot>)
    requires duration >= 1
    ensures slots == [] <==> HoursBetween(departAfter, arriveBefore) < duration
    ensures |slots| == 1 <==> HoursBetween(departAfter, arriveBefore) == duration
    ensures |slots| <= 2
    ensures AllInWindow(slots, departAfter, arriveBefore, duration)
    ensures |slots| == 1 ==> slots[0] == Slot(departAfter, arriveBefore)
    ensures |slots| == 2 ==>
      && slots[0].departure == departAfter
      && slots[1].arrival == arriveBefore
      && slots[0].arrival - slots[0].departure == duration * HOUR
      && slots[1].arrival - slots[1].departure == duration * HOUR
  {
    var window := HoursBetween(departAfter, arriveBefore);
    if window < duration then []
    else if window == duration then [Slot(departAfter, arriveBefore)]
    else [Slot(departAfter, departAfter + duration * HOUR), Slot(arriveBefore - duration * HOUR, arriveBefore)]
  }

  /** A window of exactly five hours for a five-hour trip yields that window alone. */
  lemma FreeExactWindow(departAfter: int)
    ensures FreeSlots(departAfter, departAfter + 5 * HOUR, 5) == [Slot(departAfter, departAfter + 5 * HOUR)]
  {
  }

  // ---------------------------------------------------------------------------
  // Strict schedule (fixed daily departure hours)

  /** On the first day only hours after the hour of `departAfter` count; on later days every hour does. */
  predicate Eligible(departAfter: int, h: int, day: int) {
    h > Hour(departAfter) || day > 0
  }

  /**
   * The departure at hour `h` of the `day`-th day after `departAfter`, with its
   * arrival: a whole hour, at hour `h`, on that day, after `departAfter` when
   * the hour is eligible, and the trip's duration before the arrival.
   */
  function StrictSlot(departAfter: int, duration: int, h: int, day: nat): (s: Slot)
    requires 0 <= h < 24
    ensures Hour(s.departure) == h && s.departure % HOUR == 0
    ensures DayStart(s.departure) == DayStart(departAfter) + day * DAY
    ensures Eligible(departAfter, h, day) ==> departAfter < s.departure
    ensures s.arrival - s.departure == duration * HOUR
  {
    StrictDeparture(departAfter, h, day);
    var departure := AtHour(departAfter, h) + day * DAY;
    Slot(departure, departure + duration * HOUR)
  }

  lemma StrictDeparture(departAfter: int, h: int, day: nat)
    requires 0 <= h < 24
    ensures var d := AtHour(departAfter, h) + day * DAY;
      && Hour(d) == h && d % HOUR == 0
      && DayStart(d) == DayStart(departAfter) + day * DAY
      && (Eligible(departAfter, h, day) ==> departAfter < d)
  {
    var a := AtHour(departAfter, h);
    ShiftDays(a, day);
    WholeHoursLater(a, day);
    if day == 0 && h > Hour(departAfter) {
      var hd := Hour(departAfter);
      assert departAfter < DayStart(departAfter) + (hd + 1) * HOUR;
      assert (hd + 1) * HOUR <= h * HOUR;
      assert a == DayStart(departAfter) + h * HOUR;
    }
  }

  /** Whole days later, a whole hour is still a whole hour. */
  lemma WholeHoursLater(a: int, day: nat)
    requires a % HOUR == 0
    ensures (a + day * DAY) % HOUR == 0
  {
    assert a + day * DAY == (a / HOUR + day * 24) * HOUR;
  }

  /** Slots of a strict schedule: after `departAfter`, lasting exactly `duration` hours. */
  predicate StrictShaped(slots: seq<Slot>, departAfter: int, duration: int) {
    forall k :: 0 <= k < |slots| ==>
      && departAfter < slots[k].departure
      && slots[k].arrival == slots[k].departure + duration * HOUR
  }

  lemma StrictShapedAppend(a: seq<Slot>, b: seq<Slot>, departAfter: int, duration: int)
    requires StrictShaped(a, departAfter, duration)
    requires StrictShaped(b, departAfter, duration)
    ensures StrictShaped(a + b, departAfter, duration)
  {
    forall k | 0 <= k < |a + b| ensures (a + b)[k] == if k < |a| then a[k] else b[k - |a|] {
    }
  }

  lemma StrictShapedPrefix(a: seq<Slot>, n: nat, departAfter: int, duration: int)
    requires StrictShaped(a, departAfter, duration)
    requires n <= |a|
    ensures StrictShaped(a[..n], departAfter, duration)
  {
  }

  lemma AllFitAppend(a: seq<Slot>, b: seq<Slot>, arriveBefore: int)
    requires AllFit(a, arriveBefore) && AllFit(b, arriveBefore)
    ensures AllFit(a + b, arriveBefore)
  {
    forall k | 0 <= k < |a + b| ensures (a + b)[k] == if k < |a| then a[k] else b[k - |a|] {
    }
  }

  /** The eligible departures of one day, in the order of `hours`. */
  function DayCandidates(departAfter: int, duration: int, hours: seq<int>, day: nat): (c: seq<Slot>)
    requires forall i :: 0 <= i < |hours| ==> 0 <= hours[i] < 24
    ensures |c| <= |hours|
    ensures day > 0 ==> |c| == |hours|
    ensures StrictShaped(c, departAfter, duration)
    decreases |hours|
  {
    if hours == [] then []
    else
      var init := hours[..|hours| - 1];
      var h := hours[|hours| - 1];
      var prefix := DayCandidates(departAfter, duration, init, day);
      if Eligible(departAfter, h, day) then
        StrictShapedAppend(prefix, [StrictSlot(departAfter, duration, h, day)], departAfter, duration);
        prefix + [StrictSlot(departAfter, duration, h, day)]
      else
        prefix
  }

  /** After the first day every hour is a candidate, in the order of the hours. */
  lemma {:induction false} LaterDayCandidates(departAfter: int, duration: int, hours: seq<int>, day: nat)
    requires forall i :: 0 <= i < |hours| ==> 0 <= hours[i] < 24
    requires day > 0
    ensures |DayCandidates(departAfter, duration, hours, day)| == |hours|
    ensures forall k :: 0 <= k < |hours| ==>
      DayCandidates(departAfter, duration, hours, day)[k] == StrictSlot(departAfter, duration, hours[k], day)
    decreases |hours|
  {
    if hours != [] {
      var init := hours[..|hours| - 1];
      LaterDayCandidates(departAfter, duration, init, day);
      var c := DayCandidates(departAfter, duration, hours, day);
      assert c == DayCandidates(departAfter, duration, init, day) + [StrictSlot(departAfter, duration, hours[|hours| - 1], day)];
      forall k | 0 <= k < |hours| ensures c[k] == StrictSlot(departAfter, duration, hours[k], day) {
        if k < |init| {
          assert init[k] == hours[k];
        }
      }
    }
  }

  /** The candidates of a prefix of the hours are a prefix of the day's candidates. */
  lemma {:induction false} DayCandidatesPrefix(departAfter: int, duration: int, hours: seq<int>, day: nat, j: nat)
    requires forall i :: 0 <= i < |hours| ==> 0 <= hours[i] < 24
    requires j <= |hours|
    ensures |DayCandidates(departAfter, duration, hours[..j], day)| <= |DayCandidates(departAfter, duration, hours, day)|
    ensures DayCandidates(departAfter, duration, hours[..j], day)
         == DayCandidates(departAfter, duration, hours, day)[..|DayCandidates(departAfter, duration, hours[..j], day)|]
    decreases |hours| - j
  {
    if j == |hours| {
      assert hours[..j] == hours;
    } else {
      var init := hours[..|hours| - 1];
      assert init[..j] == hours[..j];
      DayCandidatesPrefix(departAfter, duration, init, day, j);
    }
  }

  /** One more hour adds its departure when eligible. */
  lemma DayCandidatesStep(departAfter: int, duration: int, hours: seq<int>, day: nat, i: nat)
    requires forall k :: 0 <= k < |hours| ==> 0 <= hours[k] < 24
    requires i < |hours|
    ensures DayCandidates(departAfter, duration, hours[..i + 1], day)
         == DayCandidates(departAfter, duration, hours[..i], day)
            + (if Eligible(departAfter, hours[i], day) then [StrictSlot(departAfter, duration, hours[i], day)] else [])
  {
    assert hours[..i + 1][..i] == hours[..i];
  }

  lemma MeasureDrops(room: int)
    requires room >= HOUR
    ensures Max0(room - DAY) < Max0(room)
  {
  }

  lemma AppendAssoc(a: seq<Slot>, b: seq<Slot>, c: seq<Slot>)
    ensures (a + b) + c == a + (b + c)
  {
  }

  /** No slot of `slots` arrives after `arriveBefore`. */
  predicate AllFit(slots: seq<Slot>, arriveBefore: int) {
    forall k :: 0 <= k < |slots| ==> slots[k].arrival <= arriveBefore
  }

  /** The longest prefix of `c` whose slots all arrive by `arriveBefore`. */
  function TakeUntilLate(c: seq<Slot>, arriveBefore: int): (t: seq<Slot>)
    ensures |t| <= |c| && t == c[..|t|]
    ensures AllFit(t, arriveBefore)
    ensures |t| < |c| ==> c[|t|].arrival > arriveBefore
  {
    if c == [] || c[0].arrival > arriveBefore then []
    else [c[0]] + TakeUntilLate(c[1..], arriveBefore)
  }

  /** Slots that all fit are kept whole, and the cut happens in what follows them. */
  lemma {:induction false} TakeUntilLateAfterFit(a: seq<Slot>, b: seq<Slot>, arriveBefore: int)
    requires AllFit(a, arriveBefore)
    ensures TakeUntilLate(a + b, arriveBefore) == a + TakeUntilLate(b, arriveBefore)
  {
    if a != [] {
      assert (a + b)[1..] == a[1..] + b;
      TakeUntilLateAfterFit(a[1..], b, arriveBefore);
    } else {
      assert a + b == b;
    }
  }

  /** What is left of the window at the start of day `day` of the enumeration; zero once it is used up. */
  function Room(departAfter: int, arriveBefore: int, day: nat): nat {
    Max0(arriveBefore - DayStart(departAfter) - day * DAY)
  }

  /**
   * The slots of the strict schedule from day `day` on: each day's eligible
   * departures in the order of the hours, up to the first one that arrives
   * too late, which ends the enumeration.
   */
  function StrictFrom(departAfter: int, arriveBefore: int, duration: int, hours: seq<int>, day: nat): (slots: seq<Slot>)
    requires duration >= 1 && ValidHours(hours)
    ensures StrictShaped(slots, departAfter, duration)
    ensures AllFit(slots, arriveBefore)
    decreases (if day == 0 then 1 else 0), Room(departAfter, arriveBefore, day)
  {
    var c := DayCandidates(departAfter, duration, hours, day);
    var t := TakeUntilLate(c, arriveBefore);
    StrictShapedPrefix(c, |t|, departAfter, duration);
    if |t| < |c| then t
    else
      assert t == c;
      assert day > 0 ==> arriveBefore - DayStart(departAfter) - day * DAY >= HOUR by {
        if day > 0 {
          RoomLeftAfterFullDay(departAfter, arriveBefore, duration, hours, day);
        }
      }
      var rest := StrictFrom(departAfter, arriveBefore, duration, hours, day + 1);
      StrictShapedAppend(t, rest, departAfter, duration);
      AllFitAppend(t, rest, arriveBefore);
      t + rest
  }

  /** When a later day fits entirely, its first departure arrives in time, so the window reaches at least one hour into that day. */
  lemma RoomLeftAfterFullDay(departAfter: int, arriveBefore: int, duration: int, hours: seq<int>, day: nat)
    requires duration >= 1 && ValidHours(hours) && day > 0
    requires AllFit(DayCandidates(departAfter, duration, hours, day), arriveBefore)
    ensures arriveBefore - DayStart(departAfter) - day * DAY >= HOUR
  {
    LaterDayCandidates(departAfter, duration, hours, day);
    var c := DayCandidates(departAfter, duration, hours, day);
    assert c[0] == StrictSlot(departAfter, duration, hours[0], day);
    assert DayStart(departAfter) <= AtHour(departAfter, hours[0]);
  }

  /** `StrictSchedule.departuresAndArrivals`: the strict schedule's slots from the day of `departAfter`. */
  function StrictSlots(departAfter: int, arriveBefore: int, duration: int, hours: seq<int>): (slots: seq<Slot>)
    requires duration >= 1 && ValidHours(hours)
    ensures AllInWindow(slots, departAfter, arriveBefore, duration)
  {
    StrictFrom(departAfter, arriveBefore, duration, hours, 0)
  }

  /**
   * A day whose candidates all fit is taken whole and the enumeration moves
   * on to the next day, with less of the window left when it is a later day.
   */
  lemma StrictDayFits(departAfter: int, arriveBefore: int, duration: int, hours: seq<int>, day: nat)
    requires duration >= 1 && ValidHours(hours)
    requires AllFit(DayCandidates(departAfter, duration, hours, day), arriveBefore)
    ensures StrictFrom(departAfter, arriveBefore, duration, hours, day)
         == DayCandidates(departAfter, duration, hours, day) + StrictFrom(departAfter, arriveBefore, duration, hours, day + 1)
    ensures day > 0 ==>
      Room(departAfter, arriveBefore, day + 1) < Room(departAfter, arriveBefore, day)
  {
    var c := DayCandidates(departAfter, duration, hours, day);
    TakeUntilLateAfterFit(c, [], arriveBefore);
    assert c + [] == c;
    if day > 0 {
      RoomLeftAfterFullDay(departAfter, arriveBefore, duration, hours, day);
      MeasureDrops(arriveBefore - DayStart(departAfter) - day * DAY);
    }
  }

  /** A late candidate ends the enumeration with the candidates before it. */
  lemma StrictLateAt(departAfter: int, arriveBefore: int, duration: int, hours: seq<int>, day: nat, i: nat)
    requires duration >= 1 && ValidHours(hours)
    requires i < |hours|
    requires AllFit(DayCandidates(departAfter, duration, hours[..i], day), arriveBefore)
    requires Eligible(departAfter, hours[i], day)
    requires StrictSlot(departAfter, duration, hours[i], day).arrival > arriveBefore
    ensures StrictFrom(departAfter, arriveBefore, duration, hours, day) == DayCandidates(departAfter, duration, hours[..i], day)
  {
    var pre := DayCandidates(departAfter, duration, hours[..i], day);
    var late := StrictSlot(departAfter, duration, hours[i], day);
    DayCandidatesStep(departAfter, duration, hours, day, i);
    var upto := DayCandidates(departAfter, duration, hours[..i + 1], day);
    DayCandidatesPrefix(departAfter, duration, hours, day, i + 1);
    var c := DayCandidates(departAfter, duration, hours, day);
    var rest := c[|upto|..];
    assert c == upto + rest;
    AppendAssoc(pre, [late], rest);
    TakeUntilLateAfterFit(pre, [late] + rest, arriveBefore);
    assert TakeUntilLate([late] + rest, arriveBefore) == [];
    assert pre + [] == pre;
  }

  /**
   * One pass of the inner loop of `StrictSchedule.departuresAndArrivals`:
   * walks the departure hours of day `day`, keeps each eligible departure
   * that arrives in time and stops at the first that does not (`late`).
   */
  method StrictDay(departAfter: int, arriveBefore: int, duration: int, hours: seq<int>, day: nat)
    returns (today: seq<Slot>, late: bool)
    requires duration >= 1 && ValidHours(hours)
    ensures late ==> StrictFrom(departAfter, arriveBefore, duration, hours, day) == today
    ensures !late ==> StrictFrom(departAfter, arriveBefore, duration, hours, day)
                      == today + StrictFrom(departAfter, arriveBefore, duration, hours, day + 1)
    ensures !late && day > 0 ==>
      Room(departAfter, arriveBefore, day + 1) < Room(departAfter, arriveBefore, day)
  {
    today := [];
    late := false;
    var i := 0;
    while i < |hours|
      invariant 0 <= i <= |hours|
      invariant today == DayCandidates(departAfter, duration, hours[..i], day)
      invariant AllFit(today, arriveBefore)
    {
      var hour := hours[i];
      DayCandidatesStep(departAfter, duration, hours, day, i);
      if hour > Hour(departAfter) || day > 0 {
        assert Eligible(departAfter, hour, day);
        var slot := StrictSlot(departAfter, duration, hour, day);
        if slot.arrival > arriveBefore {
          StrictLateAt(departAfter, arriveBefore, duration, hours, day, i);
          late := true;
          return;
        }
        assert AllFit([slot], arriveBefore);
        AllFitAppend(today, [slot], arriveBefore);
        today := today + [slot];
      }
      i := i + 1;
    }
    assert hours[..|hours|] == hours;
    StrictDayFits(departAfter, arriveBefore, duration, hours, day);
  }

  /**
   * The outer loop of `StrictSchedule.departuresAndArrivals`: day after day,
   * runs through the departure hours until a departure arrives too late.
   */
  method StrictDeparturesAndArrivals(departAfter: int, arriveBefore: int, duration: int, hours: seq<int>)
    returns (result: seq<Slot>)
    requires duration >= 1 && ValidHours(hours)
    ensures result == StrictSlots(departAfter, arriveBefore, duration, hours)
  {
    result := [];
    var xtraDays: nat := 0;
    var done := false;
    while !done
      invariant !done ==>
        StrictSlots(departAfter, arriveBefore, duration, hours) == result + StrictFrom(departAfter, arriveBefore, duration, hours, xtraDays)
      invariant done ==> result == StrictSlots(departAfter, arriveBefore, duration, hours)
      decreases !done, xtraDays == 0, Room(departAfter, arriveBefore, xtraDays)
    {
      var today, late := StrictDay(departAfter, arriveBefore, duration, hours, xtraDays);
      StrictStep(departAfter, arriveBefore, duration, hours, xtraDays, result, today, late);
      result := result + today;
      done := late;
      xtraDays := xtraDays + 1;
    }
  }

  /** One turn of the outer loop: the slots collected so far followed by one more day's. */
  lemma StrictStep(departAfter: int, arriveBefore: int, duration: int, hours: seq<int>, day: nat,
                   result: seq<Slot>, today: seq<Slot>, late: bool)
    requires duration >= 1 && ValidHours(hours)
    requires StrictSlots(departAfter, arriveBefore, duration, hours) == result + StrictFrom(departAfter, arriveBefore, duration, hours, day)
    requires late ==> StrictFrom(departAfter, arriveBefore, duration, hours, day) == today
    requires !late ==> StrictFrom(departAfter, arriveBefore, duration, hours, day)
                       == today + StrictFrom(departAfter, arriveBefore, duration, hours, day + 1)
    ensures late ==> result + today == StrictSlots(departAfter, arriveBefore, duration, hours)
    ensures !late ==> StrictSlots(departAfter, arriveBefore, duration, hours)
                      == (result + today) + StrictFrom(departAfter, arriveBefore, duration, hours, day + 1)
  {
    if !late {
      AppendAssoc(result, today, StrictFrom(departAfter, arriveBefore, duration, hours, day + 1));
    }
  }

  /** Departures at 8, 14 and 20 o'clock, a two-hour trip, window 07:00 to 21:30: the 8 and 14 o'clock trips. */
  lemma StrictExample()
    ensures StrictSlots(7 * HOUR, 21 * HOUR + 30 * MINUTE, 2, [8, 14, 20])
         == [Slot(8 * HOUR, 10 * HOUR), Slot(14 * HOUR, 16 * HOUR)]
  {
    var aB := 21 * HOUR + 30 * MINUTE;
    StrictExampleCandidates();
    var c := DayCandidates(7 * HOUR, 2, [8, 14, 20], 0);
    assert c[1..][1..] == [Slot(20 * HOUR, 22 * HOUR)];
    assert TakeUntilLate(c[1..][1..], aB) == [];
    assert TakeUntilLate(c, aB) == [Slot(8 * HOUR, 10 * HOUR), Slot(14 * HOUR, 16 * HOUR)];
  }

  /** On the first day of the strict example all three timetable hours are still ahead of 07:00. */
  lemma StrictExampleCandidates()
    ensures DayCandidates(7 * HOUR, 2, [8, 14, 20], 0)
         == [Slot(8 * HOUR, 10 * HOUR), Slot(14 * HOUR, 16 * HOUR), Slot(20 * HOUR, 22 * HOUR)]
  {
    var hours := [8, 14, 20];
    var dA := 7 * HOUR;
    FirstDayHour(7, 0);
    assert AtHour(dA, 8) == 8 * HOUR && AtHour(dA, 14) == 14 * HOUR && AtHour(dA, 20) == 20 * HOUR;
    assert hours[..2] == [8, 14] && [8, 14][..1] == [8] && [8][..0] == [];
  }

  // ---------------------------------------------------------------------------
  // Business-hours schedule (rental offices)

  /**
   * The departure moved into business hours: to the opening hour of the same
   * day when the office has not opened yet, of the next day when it has
   * already closed; unchanged inside business hours.
   */
  function AdjustedDeparture(departAfter: int, openAt: int, closeAt: int): (r: int)
    requires ValidBusinessHours(openAt, closeAt)
    ensures departAfter <= r < departAfter + DAY
    ensures openAt <= Hour(r) < closeAt
    ensures openAt <= Hour(departAfter) < closeAt ==> r == departAfter
    ensures forall t :: departAfter <= t < r ==> !(openAt <= Hour(t) < closeAt)
  {
    if Hour(departAfter) < openAt then
      var r := AtHour(departAfter, openAt);
      HoursBeforeOpening(departAfter, openAt, closeAt);
      r
    else if Hour(departAfter) >= closeAt then
      var r := AtHour(departAfter, openAt) + DAY;
      ShiftDays(AtHour(departAfter, openAt), 1);
      HoursAfterClosing(departAfter, openAt, closeAt);
      r
    else
      departAfter
  }

  /** Between a moment before opening and the opening hour of its day, the office is closed. */
  lemma HoursBeforeOpening(t0: int, openAt: int, closeAt: int)
    requires ValidBusinessHours(openAt, closeAt)
    requires Hour(t0) < openAt
    ensures forall t :: t0 <= t < AtHour(t0, openAt) ==> Hour(t) < openAt
  {
    forall t | t0 <= t < AtHour(t0, openAt) ensures Hour(t) < openAt {
      assert DayStart(t) == DayStart(t0) by {
        SameDay(t0, t, DayStart(t0));
      }
    }
  }

  /** Between a moment after closing and the next day's opening hour, the office is closed. */
  lemma HoursAfterClosing(t0: int, openAt: int, closeAt: int)
    requires ValidBusinessHours(openAt, closeAt)
    requires Hour(t0) >= closeAt
    ensures forall t :: t0 <= t < AtHour(t0, openAt) + DAY ==> !(openAt <= Hour(t) < closeAt)
  {
    var next := DayStart(t0) + DAY;
    forall t | t0 <= t < AtHour(t0, openAt) + DAY ensures !(openAt <= Hour(t) < closeAt) {
      if t < next {
        SameDay(t0, t, DayStart(t0));
        assert DayStart(t) + (Hour(t) + 1) * HOUR > DayStart(t0) + Hour(t0) * HOUR;
        assert Hour(t) >= Hour(t0);
      } else {
        SameDay(next, t, next);
        assert AtHour(t0, openAt) == DayStart(t0) + openAt * HOUR;
        assert next + Hour(t) * HOUR < next + openAt * HOUR;
      }
    }
  }

  /** Two moments inside the same day-long span starting at midnight share that midnight. */
  lemma SameDay(t0: int, t: int, midnight: int)
    requires midnight % DAY == 0
    requires midnight <= t0 < midnight + DAY
    requires midnight <= t < midnight + DAY
    ensures DayStart(t) == midnight
  {
    HourOfDayFacts(midnight / DAY, t - midnight);
    assert midnight == (midnight / DAY) * DAY;
  }

  /**
   * The arrival moved into business hours: back to the closing hour of the
   * same day when the office is already closed, of the previous day when it
   * has not opened yet; unchanged inside business hours.
   */
  function AdjustedArrival(arriveBefore: int, openAt: int, closeAt: int): (r: int)
    requires ValidBusinessHours(openAt, closeAt)
    ensures arriveBefore - DAY < r <= arriveBefore
    ensures openAt <= Hour(r) <= closeAt
    ensures openAt <= Hour(arriveBefore) < closeAt ==> r == arriveBefore
    ensures Hour(arriveBefore) >= closeAt ==>
      Hour(r) == closeAt && r % HOUR == 0 && DayStart(r) == DayStart(arriveBefore)
    ensures Hour(arriveBefore) < openAt ==>
      Hour(r) == closeAt && r % HOUR == 0 && DayStart(r) == DayStart(arriveBefore) - DAY
  {
    if Hour(arriveBefore) >= closeAt then
      AtHour(arriveBefore, closeAt)
    else if Hour(arriveBefore) < openAt then
      ShiftDays(AtHour(arriveBefore, closeAt), -1);
      AtHour(arriveBefore, closeAt) - DAY
    else
      arriveBefore
  }

  /**
   * Hours a traveller arriving at `arrival` waits for the office: zero inside
   * business hours (closing hour included), otherwise the hours until the
   * next opening hour.
   */
  function WaitingTime(arrival: int, openAt: int, closeAt: int): (w: int)
    requires ValidBusinessHours(openAt, closeAt)
    ensures 0 <= w < 24
    ensures w == 0 <==> openAt <= Hour(arrival) <= closeAt
    ensures w > 0 ==> (Hour(arrival) + w) % 24 == openAt
  {
    var h := Hour(arrival);
    if h < openAt then openAt - h
    else if h > closeAt then 24 - h + openAt
    else 0
  }

  /**
   * The hourly scan of `optimizeWithBusinessHours`: departures `departure`,
   * `departure` + 1h, ... as long as the trip arrives by `adjustedArrival`,
   * keeping those that depart between the opening and the closing hour.
   */
  function Scan(departure: int, adjustedArrival: int, duration: int, openAt: int, closeAt: int): (slots: seq<Slot>)
    requires duration >= 1
    ensures AllInWindow(slots, departure, adjustedArrival, duration)
    ensures DepartDuringHours(slots, openAt, closeAt)
    ensures departure + duration * HOUR <= adjustedArrival && openAt <= Hour(departure) <= closeAt
      ==> slots != [] && slots[0] == Slot(departure, departure + duration * HOUR)
    decreases adjustedArrival - departure
  {
    if departure + duration * HOUR > adjustedArrival then []
    else
      var rest := Scan(departure + HOUR, adjustedArrival, duration, openAt, closeAt);
      WidenWindow(rest, departure + HOUR, departure, adjustedArrival, duration);
      if openAt <= Hour(departure) <= closeAt then
        var first := [Slot(departure, departure + duration * HOUR)];
        KeepInWindow(first + rest, first, rest, departure, adjustedArrival, duration, openAt, closeAt);
        first + rest
      else rest
  }

  /** Every slot departs between the opening and the closing hour, both included. */
  predicate DepartDuringHours(slots: seq<Slot>, openAt: int, closeAt: int) {
    forall k :: 0 <= k < |slots| ==> openAt <= Hour(slots[k].departure) <= closeAt
  }

  lemma WidenWindow(slots: seq<Slot>, from: int, earlier: int, until: int, duration: int)
    requires AllInWindow(slots, from, until, duration)
    requires earlier <= from
    ensures AllInWindow(slots, earlier, until, duration)
  {
  }

  /** Slots drawn from two sequences that lie in a window and depart during business hours do as well. */
  lemma KeepInWindow(slots: seq<Slot>, a: seq<Slot>, b: seq<Slot>, from: int, until: int, duration: int, openAt: int, closeAt: int)
    requires AllInWindow(a, from, until, duration) && DepartDuringHours(a, openAt, closeAt)
    requires AllInWindow(b, from, until, duration) && DepartDuringHours(b, openAt, closeAt)
    requires forall x :: x in slots ==> x in a || x in b
    ensures AllInWindow(slots, from, until, duration) && DepartDuringHours(slots, openAt, closeAt)
  {
    forall k | 0 <= k < |slots|
      ensures from <= slots[k].departure && slots[k].arrival <= until && slots[k].departure + duration * HOUR <= slots[k].arrival
      ensures openAt <= Hour(slots[k].departure) <= closeAt
    {
      assert slots[k] in a || slots[k] in b;
    }
  }

  /** The slots of `slots` whose arrival means waiting exactly `w` hours, in order. */
  function WithWait(slots: seq<Slot>, w: int, openAt: int, closeAt: int): (r: seq<Slot>)
    requires ValidBusinessHours(openAt, closeAt)
    ensures |r| <= |slots|
    ensures forall k :: 0 <= k < |r| ==> WaitingTime(r[k].arrival, openAt, closeAt) == w
    decreases |slots|
  {
    if slots == [] then []
    else
      var init := WithWait(slots[..|slots| - 1], w, openAt, closeAt);
      var last := slots[|slots| - 1];
      if WaitingTime(last.arrival, openAt, closeAt) == w then init + [last] else init
  }

  /** The selection holds exactly the slots of `slots` with waiting time `w`. */
  lemma {:induction false} WithWaitMembers(slots: seq<Slot>, w: int, openAt: int, closeAt: int)
    requires ValidBusinessHours(openAt, closeAt)
    ensures forall x :: x in WithWait(slots, w, openAt, closeAt) <==> x in slots && WaitingTime(x.arrival, openAt, closeAt) == w
    decreases |slots|
  {
    if slots != [] {
      var init := slots[..|slots| - 1];
      WithWaitMembers(init, w, openAt, closeAt);
      assert slots == init + [slots[|slots| - 1]];
    }
  }

  /** The waiting times that occur among `slots`. */
  function WaitsOf(slots: seq<Slot>, openAt: int, closeAt: int): (ws: set<int>)
    requires ValidBusinessHours(openAt, closeAt)
    ensures |ws| <= |slots|
    decreases |slots|
  {
    if slots == [] then {}
    else
      var init := slots[..|slots| - 1];
      WaitsOf(init, openAt, closeAt) + {WaitingTime(slots[|slots| - 1].arrival, openAt, closeAt)}
  }

  /** A waiting time occurs exactly when it selects some slot. */
  lemma {:induction false} WaitsOfMembers(slots: seq<Slot>, w: int, openAt: int, closeAt: int)
    requires ValidBusinessHours(openAt, closeAt)
    ensures w in WaitsOf(slots, openAt, closeAt) <==> WithWait(slots, w, openAt, closeAt) != []
    decreases |slots|
  {
    if slots != [] {
      WaitsOfMembers(slots[..|slots| - 1], w, openAt, closeAt);
    }
  }

  /** No slot of `slots` means a shorter wait than `slots[j]`. */
  predicate IsLeastWait(slots: seq<Slot>, j: int, openAt: int, closeAt: int)
    requires ValidBusinessHours(openAt, closeAt) && 0 <= j < |slots|
  {
    forall i :: 0 <= i < |slots| ==>
      WaitingTime(slots[j].arrival, openAt, closeAt) <= WaitingTime(slots[i].arrival, openAt, closeAt)
  }

  /** The slots of `slots` sharing the least waiting time among them, in order. */
  function BestSlots(slots: seq<Slot>, openAt: int, closeAt: int): (best: seq<Slot>)
    requires ValidBusinessHours(openAt, closeAt)
    requires slots != []
  {
    WaitsOfNonEmpty(slots, openAt, closeAt);
    WithWait(slots, MinOf(WaitsOf(slots, openAt, closeAt)), openAt, closeAt)
  }

  lemma WaitsOfNonEmpty(slots: seq<Slot>, openAt: int, closeAt: int)
    requires ValidBusinessHours(openAt, closeAt)
    requires slots != []
    ensures WaitsOf(slots, openAt, closeAt) != {}
  {
    assert WaitingTime(slots[|slots| - 1].arrival, openAt, closeAt) in WaitsOf(slots, openAt, closeAt);
  }

  /**
   * The best slots are the slots with the least waiting time: there is at
   * least one, each is one of the slots, none waits longer than any slot, and
   * every slot that waits no longer than all others is among them.
   */
  lemma BestSlotsAreLeast(slots: seq<Slot>, openAt: int, closeAt: int)
    requires ValidBusinessHours(openAt, closeAt)
    requires slots != []
    ensures BestSlots(slots, openAt, closeAt) != []
    ensures forall x :: x in BestSlots(slots, openAt, closeAt) ==> x in slots
    ensures forall k, j :: 0 <= k < |BestSlots(slots, openAt, closeAt)| && 0 <= j < |slots| ==>
      WaitingTime(BestSlots(slots, openAt, closeAt)[k].arrival, openAt, closeAt) <= WaitingTime(slots[j].arrival, openAt, closeAt)
    ensures forall j :: 0 <= j < |slots| && IsLeastWait(slots, j, openAt, closeAt) ==> slots[j] in BestSlots(slots, openAt, closeAt)
  {
    WaitsOfNonEmpty(slots, openAt, closeAt);
    var least := MinOf(WaitsOf(slots, openAt, closeAt));
    var best := WithWait(slots, least, openAt, closeAt);
    WithWaitMembers(slots, least, openAt, closeAt);
    WaitsOfMembers(slots, least, openAt, closeAt);
    forall j | 0 <= j < |slots| ensures least <= WaitingTime(slots[j].arrival, openAt, closeAt) {
      var v := WaitingTime(slots[j].arrival, openAt, closeAt);
      WithWaitMembers(slots, v, openAt, closeAt);
      WaitsOfMembers(slots, v, openAt, closeAt);
    }
    forall j | 0 <= j < |slots| && IsLeastWait(slots, j, openAt, closeAt) ensures slots[j] in best {
      var k :| 0 <= k < |slots| && slots[k] == best[0];
    }
  }

  /** The slots filed under their waiting times, each bucket in scan order: what `byWaitingTime` holds. */
  ghost function Buckets(slots: seq<Slot>, openAt: int, closeAt: int): map<int, seq<Slot>>
    requires ValidBusinessHours(openAt, closeAt)
  {
    map w | w in WaitsOf(slots, openAt, closeAt) :: WithWait(slots, w, openAt, closeAt)
  }

  /** As written: each bucket holds only the first slot filed under its waiting time. */
  ghost function FirstBuckets(slots: seq<Slot>, openAt: int, closeAt: int): map<int, seq<Slot>>
    requires ValidBusinessHours(openAt, closeAt)
  {
    map w | w in WaitsOf(slots, openAt, closeAt) :: Take1(WithWait(slots, w, openAt, closeAt))
  }

  /** The first element of a sequence, if any. */
  function Take1(s: seq<Slot>): (r: seq<Slot>)
    ensures |r| == if s == [] then 0 else 1
    ensures r == s[..|r|]
  {
    if s == [] then [] else [s[0]]
  }

  /** One more slot extends its waiting time's selection and adds that waiting time. */
  lemma WaitStep(soFar: seq<Slot>, slot: Slot, w: int, openAt: int, closeAt: int)
    requires ValidBusinessHours(openAt, closeAt)
    ensures WaitsOf(soFar + [slot], openAt, closeAt) == WaitsOf(soFar, openAt, closeAt) + {WaitingTime(slot.arrival, openAt, closeAt)}
    ensures WithWait(soFar + [slot], w, openAt, closeAt)
         == WithWait(soFar, w, openAt, closeAt) + (if WaitingTime(slot.arrival, openAt, closeAt) == w then [slot] else [])
  {
    assert (soFar + [slot])[..|soFar|] == soFar;
  }

  /** A waiting time that does not occur selects nothing. */
  lemma NoWaitNoSlots(soFar: seq<Slot>, w: int, openAt: int, closeAt: int)
    requires ValidBusinessHours(openAt, closeAt)
    requires w !in WaitsOf(soFar, openAt, closeAt)
    ensures WithWait(soFar, w, openAt, closeAt) == []
  {
    WaitsOfMembers(soFar, w, openAt, closeAt);
  }

  /** Filing one more slot appends it to its waiting time's bucket, or opens that bucket. */
  lemma BucketsStep(soFar: seq<Slot>, slot: Slot, openAt: int, closeAt: int)
    requires ValidBusinessHours(openAt, closeAt)
    ensures var m, w := Buckets(soFar, openAt, closeAt), WaitingTime(slot.arrival, openAt, closeAt);
      Buckets(soFar + [slot], openAt, closeAt) == if w in m then m[w := m[w] + [slot]] else m[w := [slot]]
  {
    var m, w := Buckets(soFar, openAt, closeAt), WaitingTime(slot.arrival, openAt, closeAt);
    var filed := if w in m then m[w := m[w] + [slot]] else m[w := [slot]];
    var next := Buckets(soFar + [slot], openAt, closeAt);
    WaitStep(soFar, slot, w, openAt, closeAt);
    if w !in m {
      NoWaitNoSlots(soFar, w, openAt, closeAt);
    }
    forall v | v in next ensures next[v] == filed[v] {
      WaitStep(soFar, slot, v, openAt, closeAt);
    }
  }

  /** As written, one more slot opens a bucket for a new waiting time and leaves an existing bucket as it was. */
  lemma FirstBucketsStep(soFar: seq<Slot>, slot: Slot, openAt: int, closeAt: int)
    requires ValidBusinessHours(openAt, closeAt)
    ensures var m, w := FirstBuckets(soFar, openAt, closeAt), WaitingTime(slot.arrival, openAt, closeAt);
      FirstBuckets(soFar + [slot], openAt, closeAt) == if w in m then m else m[w := [slot]]
  {
    var m, w := FirstBuckets(soFar, openAt, closeAt), WaitingTime(slot.arrival, openAt, closeAt);
    var filed := if w in m then m else m[w := [slot]];
    var next := FirstBuckets(soFar + [slot], openAt, closeAt);
    WaitStep(soFar, slot, w, openAt, closeAt);
    if w !in m {
      NoWaitNoSlots(soFar, w, openAt, closeAt);
    }
    forall v | v in next ensures next[v] == filed[v] {
      WaitStep(soFar, slot, v, openAt, closeAt);
      if v == w && w in m {
        WaitsOfMembers(soFar, v, openAt, closeAt);
      }
    }
  }

  /** One step of the hourly scan: the current departure, if kept, then the rest. */
  lemma ScanStep(departure: int, adjustedArrival: int, duration: int, openAt: int, closeAt: int)
    requires duration >= 1
    requires departure + duration * HOUR <= adjustedArrival
    ensures Scan(departure, adjustedArrival, duration, openAt, closeAt)
         == (if openAt <= Hour(departure) <= closeAt then [Slot(departure, departure + duration * HOUR)] else [])
            + Scan(departure + HOUR, adjustedArrival, duration, openAt, closeAt)
  {
  }

  /** Once the arrival passes the window, the scan has nothing left. */
  lemma ScanDone(all: seq<Slot>, soFar: seq<Slot>, departure: int, arrival: int, adjustedArrival: int, duration: int, openAt: int, closeAt: int)
    requires duration >= 1
    requires arrival == departure + duration * HOUR && arrival > adjustedArrival
    requires all == soFar + Scan(departure, adjustedArrival, duration, openAt, closeAt)
    ensures all == soFar
  {
    assert soFar + [] == soFar;
  }

  /** Advancing the scan by one hour moves the current departure, if kept, to the slots scanned so far. */
  lemma ScanAdvance(all: seq<Slot>, soFar: seq<Slot>, departure: int, arrival: int, adjustedArrival: int, duration: int, openAt: int, closeAt: int)
    requires duration >= 1
    requires arrival == departure + duration * HOUR <= adjustedArrival
    requires all == soFar + Scan(departure, adjustedArrival, duration, openAt, closeAt)
    ensures openAt <= Hour(departure) <= closeAt ==>
      all == (soFar + [Slot(departure, arrival)]) + Scan(departure + HOUR, adjustedArrival, duration, openAt, closeAt)
    ensures !(openAt <= Hour(departure) <= closeAt) ==>
      all == soFar + Scan(departure + HOUR, adjustedArrival, duration, openAt, closeAt)
  {
    ScanStep(departure, adjustedArrival, duration, openAt, closeAt);
    var rest := Scan(departure + HOUR, adjustedArrival, duration, openAt, closeAt);
    AppendAssoc(soFar, [Slot(departure, departure + duration * HOUR)], rest);
    assert [] + rest == rest;
  }

  /** The bucket of the least waiting time holds the best slots. */
  lemma BucketsBest(all: seq<Slot>, openAt: int, closeAt: int)
    requires ValidBusinessHours(openAt, closeAt)
    requires all != []
    ensures Buckets(all, openAt, closeAt).Keys != {}
    ensures var m := Buckets(all, openAt, closeAt); m[MinOf(m.Keys)] == BestSlots(all, openAt, closeAt)
  {
    WaitsOfNonEmpty(all, openAt, closeAt);
    var m := Buckets(all, openAt, closeAt);
    assert m.Keys == WaitsOf(all, openAt, closeAt);
    var least := MinOf(WaitsOf(all, openAt, closeAt));
    assert m[least] == WithWait(all, least, openAt, closeAt);
  }

  /** As written, the bucket of the least waiting time holds the first of the best slots only. */
  lemma FirstBucketsBest(all: seq<Slot>, openAt: int, closeAt: int)
    requires ValidBusinessHours(openAt, closeAt)
    requires all != []
    ensures FirstBuckets(all, openAt, closeAt).Keys != {}
    ensures var m := FirstBuckets(all, openAt, closeAt); m[MinOf(m.Keys)] == Take1(BestSlots(all, openAt, closeAt))
  {
    WaitsOfNonEmpty(all, openAt, closeAt);
    var m := FirstBuckets(all, openAt, closeAt);
    assert m.Keys == WaitsOf(all, openAt, closeAt);
    var least := MinOf(WaitsOf(all, openAt, closeAt));
    assert m[least] == Take1(WithWait(all, least, openAt, closeAt));
  }

  /** One turn of the optimizer's loop: a departure during business hours is appended to its waiting time's bucket. */
  method ConsiderDeparture(byWaitingTime: map<int, seq<Slot>>, ghost all: seq<Slot>, ghost soFar: seq<Slot>,
                           departure: int, arrival: int, adjustedArrival: int, duration: int, openAt: int, closeAt: int)
    returns (filed: map<int, seq<Slot>>, ghost considered: seq<Slot>)
    requires ValidBusinessHours(openAt, closeAt) && duration >= 1
    requires arrival == departure + duration * HOUR <= adjustedArrival
    requires all == soFar + Scan(departure, adjustedArrival, duration, openAt, closeAt)
    requires byWaitingTime == Buckets(soFar, openAt, closeAt)
    ensures all == considered + Scan(departure + HOUR, adjustedArrival, duration, openAt, closeAt)
    ensures filed == Buckets(considered, openAt, closeAt)
  {
    ScanAdvance(all, soFar, departure, arrival, adjustedArrival, duration, openAt, closeAt);
    filed, considered := byWaitingTime, soFar;
    if openAt <= Hour(departure) <= closeAt {
      var waitingTime := WaitingTime(arrival, openAt, closeAt);
      BucketsStep(soFar, Slot(departure, arrival), openAt, closeAt);
      if waitingTime in byWaitingTime {
        filed := byWaitingTime[waitingTime := byWaitingTime[waitingTime] + [Slot(departure, arrival)]];
      } else {
        filed := byWaitingTime[waitingTime := [Slot(departure, arrival)]];
      }
      considered := soFar + [Slot(departure, arrival)];
    }
  }

  /**
   * `optimizeWithBusinessHours`: scans the window hour by hour, files each
   * slot that departs during business hours under its waiting time and
   * returns the slots filed under the least waiting time.
   */
  method OptimizeWithBusinessHours(adjustedDeparture: int, adjustedArrival: int, duration: int, openAt: int, closeAt: int)
    returns (result: seq<Slot>)
    requires ValidBusinessHours(openAt, closeAt) && duration >= 1
    requires adjustedDeparture + duration * HOUR <= adjustedArrival
    requires openAt <= Hour(adjustedDeparture) <= closeAt
    ensures result == BestSlots(Scan(adjustedDeparture, adjustedArrival, duration, openAt, closeAt), openAt, closeAt)
  {
    var departure := adjustedDeparture;
    var arrival := adjustedDeparture + duration * HOUR;
    var byWaitingTime: map<int, seq<Slot>> := map[];
    ghost var soFar: seq<Slot> := [];
    ghost var all := Scan(adjustedDeparture, adjustedArrival, duration, openAt, closeAt);
    while !(arrival > adjustedArrival)
      invariant arrival == departure + duration * HOUR
      invariant all == soFar + Scan(departure, adjustedArrival, duration, openAt, closeAt)
      invariant byWaitingTime == Buckets(soFar, openAt, closeAt)
      decreases adjustedArrival - arrival
    {
      byWaitingTime, soFar := ConsiderDeparture(byWaitingTime, all, soFar, departure, arrival, adjustedArrival, duration, openAt, closeAt);
      departure := departure + HOUR;
      arrival := arrival + HOUR;
    }
    ScanDone(all, soFar, departure, arrival, adjustedArrival, duration, openAt, closeAt);
    BucketsBest(all, openAt, closeAt);
    result := byWaitingTime[MinOf(byWaitingTime.Keys)];
  }

  /** One turn of the optimizer's loop as written: the concatenation meant for an existing bucket is discarded. */
  method ConsiderDepartureAsWritten(byWaitingTime: map<int, seq<Slot>>, ghost all: seq<Slot>, ghost soFar: seq<Slot>,
                                    departure: int, arrival: int, adjustedArrival: int, duration: int, openAt: int, closeAt: int)
    returns (filed: map<int, seq<Slot>>, ghost considered: seq<Slot>)
    requires ValidBusinessHours(openAt, closeAt) && duration >= 1
    requires arrival == departure + duration * HOUR <= adjustedArrival
    requires all == soFar + Scan(departure, adjustedArrival, duration, openAt, closeAt)
    requires byWaitingTime == FirstBuckets(soFar, openAt, closeAt)
    ensures all == considered + Scan(departure + HOUR, adjustedArrival, duration, openAt, closeAt)
    ensures filed == FirstBuckets(considered, openAt, closeAt)
  {
    ScanAdvance(all, soFar, departure, arrival, adjustedArrival, duration, openAt, closeAt);
    filed, considered := byWaitingTime, soFar;
    if openAt <= Hour(departure) <= closeAt {
      var waitingTime := WaitingTime(arrival, openAt, closeAt);
      FirstBucketsStep(soFar, Slot(departure, arrival), openAt, closeAt);
      if waitingTime in byWaitingTime {
        var discarded := byWaitingTime[waitingTime] + [Slot(departure, arrival)];
      } else {
        filed := byWaitingTime[waitingTime := [Slot(departure, arrival)]];
      }
      considered := soFar + [Slot(departure, arrival)];
    }
  }

  /**
   * `optimizeWithBusinessHours` as written: the line meant to append a slot
   * to an existing bucket builds a new list and drops it, so every bucket
   * keeps only the first slot filed under it.
   */
  method OptimizeWithBusinessHoursAsWritten(adjustedDeparture: int, adjustedArrival: int, duration: int, openAt: int, closeAt: int)
    returns (result: seq<Slot>)
    requires ValidBusinessHours(openAt, closeAt) && duration >= 1
    requires adjustedDeparture + duration * HOUR <= adjustedArrival
    requires openAt <= Hour(adjustedDeparture) <= closeAt
    ensures result == Take1(BestSlots(Scan(adjustedDeparture, adjustedArrival, duration, openAt, closeAt), openAt, closeAt))
  {
    var departure := adjustedDeparture;
    var arrival := adjustedDeparture + duration * HOUR;
    var byWaitingTime: map<int, seq<Slot>> := map[];
    ghost var soFar: seq<Slot> := [];
    ghost var all := Scan(adjustedDeparture, adjustedArrival, duration, openAt, closeAt);
    while !(arrival > adjustedArrival)
      invariant arrival == departure + duration * HOUR
      invariant all == soFar + Scan(departure, adjustedArrival, duration, openAt, closeAt)
      invariant byWaitingTime == FirstBuckets(soFar, openAt, closeAt)
      decreases adjustedArrival - arrival
    {
      byWaitingTime, soFar := ConsiderDepartureAsWritten(byWaitingTime, all, soFar, departure, arrival, adjustedArrival, duration, openAt, closeAt);
      departure := departure + HOUR;
      arrival := arrival + HOUR;
    }
    ScanDone(all, soFar, departure, arrival, adjustedArrival, duration, openAt, closeAt);
    FirstBucketsBest(all, openAt, closeAt);
    result := byWaitingTime[MinOf(byWaitingTime.Keys)];
  }

  /**
   * `BusinessHoursSchedule.departuresAndArrivals`: the window moved into
   * business hours; nothing when it is shorter than the trip, the adjusted
   * window itself when it has exactly the trip's whole hours, otherwise the
   * best slots of the hourly scan.
   */
  function BusinessHoursSlots(departAfter: int, arriveBefore: int, duration: int, openAt: int, closeAt: int): (slots: seq<Slot>)
    requires ValidBusinessHours(openAt, closeAt) && duration >= 1
    ensures AllInWindow(slots, departAfter, arriveBefore, duration)
    ensures forall k :: 0 <= k < |slots| ==> openAt <= Hour(slots[k].departure) <= closeAt
    ensures slots == [] <==>
      HoursBetween(AdjustedDeparture(departAfter, openAt, closeAt), AdjustedArrival(arriveBefore, openAt, closeAt)) < duration
    ensures var d, a := AdjustedDeparture(departAfter, openAt, closeAt), AdjustedArrival(arriveBefore, openAt, closeAt);
      HoursBetween(d, a) == duration ==> slots == [Slot(d, a)]
    ensures var d, a := AdjustedDeparture(departAfter, openAt, closeAt), AdjustedArrival(arriveBefore, openAt, closeAt);
      HoursBetween(d, a) > duration ==> LeastWaitSlots(slots, Scan(d, a, duration, openAt, closeAt), openAt, closeAt)
  {
    var adjustedDeparture := AdjustedDeparture(departAfter, openAt, closeAt);
    var adjustedArrival := AdjustedArrival(arriveBefore, openAt, closeAt);
    var window := HoursBetween(adjustedDeparture, adjustedArrival);
    if window < duration then []
    else if window == duration then [Slot(adjustedDeparture, adjustedArrival)]
    else
      var all := Scan(adjustedDeparture, adjustedArrival, duration, openAt, closeAt);
      var best := BestSlots(all, openAt, closeAt);
      BestSlotsAreLeast(all, openAt, closeAt);
      KeepInWindow(best, all, [], adjustedDeparture, adjustedArrival, duration, openAt, closeAt);
      WidenWindow(best, adjustedDeparture, departAfter, adjustedArrival, duration);
      NarrowWindow(best, departAfter, adjustedArrival, arriveBefore, duration);
      best
  }

  /**
   * `best` is drawn from `all`, no slot of `best` waits longer than any slot
   * of `all`, and every slot of `all` with the least wait is in `best`.
   */
  predicate LeastWaitSlots(best: seq<Slot>, all: seq<Slot>, openAt: int, closeAt: int)
    requires ValidBusinessHours(openAt, closeAt)
  {
    && (forall x :: x in best ==> x in all)
    && (forall k, j :: 0 <= k < |best| && 0 <= j < |all| ==>
          WaitingTime(best[k].arrival, openAt, closeAt) <= WaitingTime(all[j].arrival, openAt, closeAt))
    && (forall j :: 0 <= j < |all| && IsLeastWait(all, j, openAt, closeAt) ==> all[j] in best)
  }

  lemma NarrowWindow(slots: seq<Slot>, from: int, until: int, later: int, duration: int)
    requires AllInWindow(slots, from, until, duration)
    requires until <= later
    ensures AllInWindow(slots, from, later, duration)
  {
  }

  /** The business-hours policy with the corrected optimiser, which keeps every slot of least wait. */
  method BusinessHoursDeparturesAndArrivals(departAfter: int, arriveBefore: int, duration: int, openAt: int, closeAt: int)
    returns (result: seq<Slot>)
    requires ValidBusinessHours(openAt, closeAt) && duration >= 1
    ensures result == BusinessHoursSlots(departAfter, arriveBefore, duration, openAt, closeAt)
  {
    var adjustedDeparture := AdjustedDeparture(departAfter, openAt, closeAt);
    var adjustedArrival := AdjustedArrival(arriveBefore, openAt, closeAt);
    var adjustedDuration := HoursBetween(adjustedDeparture, adjustedArrival);
    if adjustedDuration < duration {
      return [];
    }
    if adjustedDuration == duration {
      return [Slot(adjustedDeparture, adjustedArrival)];
    }
    result := OptimizeWithBusinessHours(adjustedDeparture, adjustedArrival, duration, openAt, closeAt);
  }

  /**
   * The business-hours policy as the source runs it, through the optimiser
   * that keeps only the first slot of each waiting time: the first slot of
   * the corrected policy.
   */
  method BusinessHoursDeparturesAndArrivalsAsWritten(departAfter: int, arriveBefore: int, duration: int, openAt: int, closeAt: int)
    returns (result: seq<Slot>)
    requires ValidBusinessHours(openAt, closeAt) && duration >= 1
    ensures result == Take1(BusinessHoursSlots(departAfter, arriveBefore, duration, openAt, closeAt))
  {
    var adjustedDeparture := AdjustedDeparture(departAfter, openAt, closeAt);
    var adjustedArrival := AdjustedArrival(arriveBefore, openAt, closeAt);
    var adjustedDuration := HoursBetween(adjustedDeparture, adjustedArrival);
    if adjustedDuration < duration {
      return [];
    }
    if adjustedDuration == duration {
      return [Slot(adjustedDeparture, adjustedArrival)];
    }
    result := OptimizeWithBusinessHoursAsWritten(adjustedDeparture, adjustedArrival, duration, openAt, closeAt);
  }

  /**
   * A car office open 8 to 22, a two-hour trip and a window 10:00 to 13:00:
   * both the 10:00 and the 11:00 departures arrive during business hours and
   * are offered, while the source as written offers only the first.
   */
  lemma BusinessHoursTieExample()
    ensures BestSlots(Scan(10 * HOUR, 13 * HOUR, 2, 8, 22), 8, 22) == [Slot(10 * HOUR, 12 * HOUR), Slot(11 * HOUR, 13 * HOUR)]
    ensures Take1(BestSlots(Scan(10 * HOUR, 13 * HOUR, 2, 8, 22), 8, 22)) == [Slot(10 * HOUR, 12 * HOUR)]
    ensures BusinessHoursSlots(10 * HOUR, 13 * HOUR, 2, 8, 22) == [Slot(10 * HOUR, 12 * HOUR), Slot(11 * HOUR, 13 * HOUR)]
    ensures Take1(BusinessHoursSlots(10 * HOUR, 13 * HOUR, 2, 8, 22)) == [Slot(10 * HOUR, 12 * HOUR)]
  {
    BusinessHoursExampleWindow();
    var s1 := Slot(10 * HOUR, 12 * HOUR);
    var s2 := Slot(11 * HOUR, 13 * HOUR);
    TieExampleScan();
    var all := Scan(10 * HOUR, 13 * HOUR, 2, 8, 22);
    FirstDayHour(12, 0);
    FirstDayHour(13, 0);
    assert WaitingTime(s1.arrival, 8, 22) == 0 && WaitingTime(s2.arrival, 8, 22) == 0;
    assert all[..1] == [s1];
    assert WaitsOf(all, 8, 22) == {0};
    assert WithWait(all[..1], 0, 8, 22) == [s1];
  }

  /** The scan of the tie example keeps the 10:00 and 11:00 departures. */
  lemma TieExampleScan()
    ensures Scan(10 * HOUR, 13 * HOUR, 2, 8, 22) == [Slot(10 * HOUR, 12 * HOUR), Slot(11 * HOUR, 13 * HOUR)]
  {
    FirstDayHour(10, 0);
    FirstDayHour(11, 0);
    assert Scan(12 * HOUR, 13 * HOUR, 2, 8, 22) == [];
    assert Scan(11 * HOUR, 13 * HOUR, 2, 8, 22) == [Slot(11 * HOUR, 13 * HOUR)];
  }

  /** The window requested by the business-hours example: 10:00 to 13:00 is already inside business hours. */
  lemma BusinessHoursExampleWindow()
    ensures AdjustedDeparture(10 * HOUR, 8, 22) == 10 * HOUR
    ensures AdjustedArrival(13 * HOUR, 8, 22) == 13 * HOUR
    ensures HoursBetween(10 * HOUR, 13 * HOUR) == 3
  {
    assert Hour(10 * HOUR) == 10 && Hour(13 * HOUR) == 13;
  }

  // ---------------------------------------------------------------------------
  // Dispatch over the policies

  /** `Schedule.departuresAndArrivals` for a trip of `distance` kilometres. */
  function Slots(schedule: Schedule, trip: TripDetails, distance: nat): (slots: seq<Slot>)
    requires ValidSchedule(schedule)
    ensures AllInWindow(slots, trip.departAfter, trip.arriveBefore, TripDuration(distance, trip.transportType))
  {
    var duration := TripDuration(distance, trip.transportType);
    match schedule
    case FreeSchedule => FreeSlots(trip.departAfter, trip.arriveBefore, duration)
    case StrictSchedule(hours) => StrictSlots(trip.departAfter, trip.arriveBefore, duration, hours)
    case BusinessHoursSchedule(openAt, closeAt) => BusinessHoursSlots(trip.departAfter, trip.arriveBefore, duration, openAt, closeAt)
  }

  /** The three policies, with the corrected business-hours optimiser; `BusinessHoursDeparturesAndArrivalsAsWritten` gives the source's result. */
  method DeparturesAndArrivals(schedule: Schedule, trip: TripDetails, distance: nat) returns (slots: seq<Slot>)
    requires ValidSchedule(schedule)
    ensures slots == Slots(schedule, trip, distance)
  {
    var duration := TripDuration(distance, trip.transportType);
    match schedule {
      case FreeSchedule =>
        slots := FreeSlots(trip.departAfter, trip.arriveBefore, duration);
      case StrictSchedule(hours) =>
        slots := StrictDeparturesAndArrivals(trip.departAfter, trip.arriveBefore, duration, hours);
      case BusinessHoursSchedule(openAt, closeAt) =>
        slots := BusinessHoursDeparturesAndArrivals(trip.departAfter, trip.arriveBefore, duration, openAt, closeAt);
    }
  }

  /** The schedules of the six mock providers. */
  function ProviderSchedule(t: TransportType): (s: Schedule)
    ensures ValidSchedule(s)
  {
    match t
    case AIRLINER => StrictSchedule([8, 14, 20])
    case BIKE => BusinessHoursSchedule(9, 21)
    case CAR => BusinessHoursSchedule(8, 22)
    case FERRY => StrictSchedule([10, 22])
    case TAXI => FreeSchedule
    case TRAIN => StrictSchedule([7, 11, 15, 19])
  }
}
