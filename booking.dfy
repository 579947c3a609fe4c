/** The patient client's booking page (`Appointment`): the week of half-hour
    slots offered for a doctor and the state handed to the reason page when
    the patient books. A moment is a day number and the minutes since that
    day's midnight; the minutes may run past midnight, as a JavaScript
    `Date` does when its hours are set to 24. */
module Booking {
  import opened Common
  import opened Lists

  /** A slot: its day and its starting minute. */
  datatype Slot = Slot(day: int, minute: int)

  const Hour := 60
  const SlotLength := 30
  const DaysOffered := 7
  /** 10:00, the first slot of a day. */
  const OpeningTime := 10 * Hour
  /** 21:00: a slot must start before it. */
  const ClosingTime := 21 * Hour

  /** The minute the slots of day `i` (0 is today) start at, given the
      current hour and minute: today, the hour after the current one once it
      is 10 or later (10 before that), at half past when the current minute
      is past 30 and on the hour otherwise; every later day at 10:00. */
  function DayStart(i: int, nowHour: int, nowMinute: int): (start: int)
    ensures i != 0 ==> start == OpeningTime
    ensures i == 0 ==> start == (if nowHour >= 10 then nowHour + 1 else 10) * Hour + (if nowMinute > 30 then 30 else 0)
    ensures start >= OpeningTime
  {
    if i == 0 then
      (if nowHour >= 10 then nowHour + 1 else 10) * Hour + (if nowMinute > 30 then 30 else 0)
    else OpeningTime
  }

  /** The slots of `day` from `start` on, every half hour, while before
      closing time. */
  function DaySlots(day: int, start: int): seq<Slot>
    decreases ClosingTime - start
  {
    if start < ClosingTime then [Slot(day, start)] + DaySlots(day, start + SlotLength) else []
  }

  /** The slots of a day are the half hours from its start, the last one
      before closing time and the next one not: the list is empty exactly
      when the start is not before closing time. */
  lemma {:induction false} DaySlotsShape(day: int, start: int)
    ensures var r := DaySlots(day, start);
            && (forall k :: 0 <= k < |r| ==> r[k] == Slot(day, start + SlotLength * k))
            && (forall k :: 0 <= k < |r| ==> r[k].minute < ClosingTime)
            && start + SlotLength * |r| >= ClosingTime
            && (r == [] <==> start >= ClosingTime)
    decreases ClosingTime - start
  {
    if start < ClosingTime {
      DaySlotsShape(day, start + SlotLength);
      var rest := DaySlots(day, start + SlotLength);
      var r := DaySlots(day, start);
      assert r == [Slot(day, start)] + rest;
      forall k | 0 <= k < |r|
        ensures r[k] == Slot(day, start + SlotLength * k)
      {
        if k > 0 {
          assert r[k] == rest[k - 1];
        }
      }
    }
  }

  /** Consecutive slots of a day are 30 minutes apart. */
  lemma SlotsHalfHourApart(day: int, start: int)
    ensures var r := DaySlots(day, start);
            forall k :: 0 <= k < |r| - 1 ==> r[k + 1].minute == r[k].minute + SlotLength && r[k + 1].day == r[k].day
  {
    DaySlotsShape(day, start);
  }

  /** `generateSlots`: for each of the 7 days from `today`, the list built by
      stepping a clock from the day's start by half hours while it is before
      21:00. */
  method GenerateSlots(today: int, nowHour: int, nowMinute: int) returns (slots: seq<seq<Slot>>)
    ensures |slots| == DaysOffered
    ensures forall i :: 0 <= i < |slots| ==> slots[i] == DaySlots(today + i, DayStart(i, nowHour, nowMinute))
  {
    slots := [];
    var i := 0;
    while i < DaysOffered
      invariant 0 <= i <= DaysOffered && |slots| == i
      invariant forall k :: 0 <= k < i ==> slots[k] == DaySlots(today + k, DayStart(k, nowHour, nowMinute))
    {
      var current;
      if i == 0 {
        var hour := if nowHour >= 10 then nowHour + 1 else 10;
        var minute := if nowMinute > 30 then 30 else 0;
        current := hour * Hour + minute;
      } else {
        current := 10 * Hour;
      }
      ghost var start := current;
      var timeSlots := [];
      while current < ClosingTime
        invariant timeSlots + DaySlots(today + i, current) == DaySlots(today + i, start)
        decreases ClosingTime - current
      {
        ConcatAssoc(timeSlots, [Slot(today + i, current)], DaySlots(today + i, current + SlotLength));
        timeSlots := timeSlots + [Slot(today + i, current)];
        current := current + SlotLength;
      }
      assert timeSlots + [] == timeSlots;
      slots := slots + [timeSlots];
      i := i + 1;
    }
  }

  /** Every generated slot lies on its own day, on or after the day's
      start and before 21:00; days 1 to 6 begin at 10:00 whenever any slot
      is offered. */
  lemma GeneratedSlotsInHours(today: int, nowHour: int, nowMinute: int, slots: seq<seq<Slot>>)
    requires |slots| == DaysOffered
    requires forall i :: 0 <= i < |slots| ==> slots[i] == DaySlots(today + i, DayStart(i, nowHour, nowMinute))
    ensures forall i, k :: 0 <= i < |slots| && 0 <= k < |slots[i]| ==>
              && slots[i][k].day == today + i
              && OpeningTime <= slots[i][k].minute < ClosingTime
    ensures forall i :: 1 <= i < |slots| ==> slots[i] != [] && slots[i][0] == Slot(today + i, OpeningTime)
  {
    forall i | 0 <= i < |slots|
      ensures forall k :: 0 <= k < |slots[i]| ==>
                slots[i][k].day == today + i && OpeningTime <= slots[i][k].minute < ClosingTime
      ensures 1 <= i ==> slots[i] != [] && slots[i][0] == Slot(today + i, OpeningTime)
    {
      DaySlotsShape(today + i, DayStart(i, nowHour, nowMinute));
    }
  }

  /** The state the booking hands to the reason page. */
  datatype BookingState = BookingState(
    doctorId: string,
    patientId: UserId,
    appointmentDate: Option<Slot>,
    appointmentTime: string)

  /** `handleBookAppointment`: the doctor of the page, the signed-in patient,
      the first slot of the selected day (none when that day has no slot)
      and the chosen time. */
  function HandleBookAppointment(slots: seq<seq<Slot>>, slotIndex: int, docId: string,
                                 userId: UserId, slotTime: string): (b: BookingState)
    requires 0 <= slotIndex < |slots|
    ensures b.doctorId == docId && b.patientId == userId && b.appointmentTime == slotTime
    ensures b.appointmentDate.None? <==> slots[slotIndex] == []
    ensures b.appointmentDate.Some? ==> b.appointmentDate.value == slots[slotIndex][0]
  {
    BookingState(docId, userId,
                 if slots[slotIndex] == [] then None else Some(slots[slotIndex][0]),
                 slotTime)
  }

  /** Booking on a generated day passes that day's start as the date, or no
      date when the day has no slot left. */
  lemma BookedDateIsDayStart(today: int, nowHour: int, nowMinute: int, slots: seq<seq<Slot>>, i: int,
                             docId: string, userId: UserId, slotTime: string)
    requires |slots| == DaysOffered && 0 <= i < |slots|
    requires slots[i] == DaySlots(today + i, DayStart(i, nowHour, nowMinute))
    ensures var b := HandleBookAppointment(slots, i, docId, userId, slotTime);
            && (b.appointmentDate.None? <==> DayStart(i, nowHour, nowMinute) >= ClosingTime)
            && (b.appointmentDate.Some? ==> b.appointmentDate.value == Slot(today + i, DayStart(i, nowHour, nowMinute)))
  {
    DaySlotsShape(today + i, DayStart(i, nowHour, nowMinute));
  }
}
