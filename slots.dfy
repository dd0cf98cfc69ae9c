/**
 * The time-slot record and the one-hour business-day template that both the
 * edge function and the browser mock build: one slot per hour from 9 to 16,
 * labelled `${hour}:00` to `${hour + 1}:00`.
 */
module Slots {
  import opened Results
  import opened Decimal

  /** A bookable slot as returned to the caller. */
  datatype TimeSlot = TimeSlot(id: string, startTime: string, endTime: string, isAvailable: bool)

  const OpeningHour: nat := 9
  const ClosingHour: nat := 17
  const SlotsPerDay: nat := ClosingHour - OpeningHour

  /** The identifier `${prefix}-${hour}` of the slot starting at `hour`. */
  function SlotId(prefix: string, hour: nat): string {
    prefix + "-" + Digits(hour)
  }

  /** The slot for one hour of the day, with the availability flag given. */
  function HourSlot(prefix: string, hour: nat, available: bool): TimeSlot {
    TimeSlot(SlotId(prefix, hour), ClockLabel(hour), ClockLabel(hour + 1), available)
  }

  /** The day's slots in hour order, the k-th one available iff `avail[k]`. */
  function HourSlots(prefix: string, avail: seq<bool>): seq<TimeSlot>
    requires |avail| == SlotsPerDay
  {
    seq(SlotsPerDay, k requires 0 <= k < SlotsPerDay => HourSlot(prefix, OpeningHour + k, avail[k]))
  }

  /** Two slots of one day (same prefix) have the same id only if they start at the same hour. */
  lemma SlotIdInjective(prefix: string, h1: nat, h2: nat)
    requires SlotId(prefix, h1) == SlotId(prefix, h2)
    ensures h1 == h2
  {
    var a, b := SlotId(prefix, h1), SlotId(prefix, h2);
    assert a[|prefix| + 1..] == Digits(h1);
    assert b[|prefix| + 1..] == Digits(h2);
    DigitsInjective(h1, h2);
  }

  /**
   * The template has eight slots, one per business hour: slot k starts at
   * minute (9 + k) * 60 and ends one hour later, where slot k + 1 starts, and
   * its flag is the k-th availability given.
   */
  lemma HourSlotsShape(prefix: string, avail: seq<bool>)
    requires |avail| == SlotsPerDay
    ensures |HourSlots(prefix, avail)| == 8
    ensures forall k :: 0 <= k < SlotsPerDay ==>
      && ParseClock(HourSlots(prefix, avail)[k].startTime) == Some((OpeningHour + k) * 60)
      && ParseClock(HourSlots(prefix, avail)[k].endTime) == Some((OpeningHour + k + 1) * 60)
      && HourSlots(prefix, avail)[k].isAvailable == avail[k]
  {
    HourSlotsBounds(prefix, avail);
  }

  /** Every slot of the template reads back as the hour it stands for. */
  lemma HourSlotsBounds(prefix: string, avail: seq<bool>)
    requires |avail| == SlotsPerDay
    ensures forall k :: 0 <= k < SlotsPerDay ==>
      && ParseClock(HourSlots(prefix, avail)[k].startTime) == Some((OpeningHour + k) * 60)
      && ParseClock(HourSlots(prefix, avail)[k].endTime) == Some((OpeningHour + k + 1) * 60)
  {
    forall k | 0 <= k < SlotsPerDay
      ensures ParseClock(HourSlots(prefix, avail)[k].startTime) == Some((OpeningHour + k) * 60)
      ensures ParseClock(HourSlots(prefix, avail)[k].endTime) == Some((OpeningHour + k + 1) * 60)
    {
      HourSlotBounds(prefix, OpeningHour + k, avail[k]);
    }
  }

  /** A slot for an hour of the day reads back as the minutes that hour starts and ends. */
  lemma HourSlotBounds(prefix: string, hour: nat, available: bool)
    requires hour < 24
    ensures ParseClock(HourSlot(prefix, hour, available).startTime) == Some(hour * 60)
    ensures ParseClock(HourSlot(prefix, hour, available).endTime) == Some((hour + 1) * 60)
  {
    ClockRoundTrip(hour);
    ClockRoundTrip(hour + 1);
  }

  /**
   * Read as JavaScript Dates, every end label is a valid time, and so is every
   * start label except that of the first slot, "9:00", whose hour has one digit.
   */
  lemma HourSlotsIsoBounds(prefix: string, avail: seq<bool>)
    requires |avail| == SlotsPerDay
    ensures forall k :: 0 <= k < SlotsPerDay ==>
      && ParseIsoTime(HourSlots(prefix, avail)[k].startTime)
           == (if k == 0 then None else Some((OpeningHour + k) * 60))
      && ParseIsoTime(HourSlots(prefix, avail)[k].endTime) == Some((OpeningHour + k + 1) * 60)
  {
    forall k | 0 <= k < SlotsPerDay
      ensures ParseIsoTime(HourSlots(prefix, avail)[k].startTime)
           == (if k == 0 then None else Some((OpeningHour + k) * 60))
      ensures ParseIsoTime(HourSlots(prefix, avail)[k].endTime) == Some((OpeningHour + k + 1) * 60)
    {
      IsoTimeOfLabel(OpeningHour + k);
      IsoTimeOfLabel(OpeningHour + k + 1);
    }
  }

  /** No two slots of one template share an id. */
  lemma HourSlotsIdsDistinct(prefix: string, avail: seq<bool>)
    requires |avail| == SlotsPerDay
    ensures forall i, j :: 0 <= i < j < SlotsPerDay ==> HourSlots(prefix, avail)[i].id != HourSlots(prefix, avail)[j].id
  {
    forall i, j | 0 <= i < j < SlotsPerDay
      ensures HourSlots(prefix, avail)[i].id != HourSlots(prefix, avail)[j].id
    {
      if HourSlots(prefix, avail)[i].id == HourSlots(prefix, avail)[j].id {
        SlotIdInjective(prefix, OpeningHour + i, OpeningHour + j);
      }
    }
  }

  /** The labels carry no zero padding: the day runs from "9:00" to "17:00". */
  lemma HourSlotsLabels(prefix: string, avail: seq<bool>)
    requires |avail| == SlotsPerDay
    ensures HourSlots(prefix, avail)[0].startTime == "9:00"
    ensures HourSlots(prefix, avail)[SlotsPerDay - 1].endTime == "17:00"
  {
  }
}
