/**
 * Marking the day's slots against the busy intervals reported by the
 * calendar's free/busy query. Times are minutes after midnight of the queried
 * day. The edge function reads a slot's bounds back from its "H:00" labels as
 * JavaScript Dates, which makes the unpadded "9:00" an invalid Date.
 *
 * `MarkAvailability` is the test the edge function applies: a slot is busy
 * when its start lies in [busyStart, busyEnd) or its end lies in
 * (busyStart, busyEnd]. `MarkAvailabilityIntended` is the half-open
 * intersection test that the first one evidently stands for; the two differ
 * on busy intervals that lie strictly inside a slot, and on the 9:00 slot,
 * whose start the intended test reads as the hour its label stands for.
 */
module BusyMarking {
  import opened Results
  import opened Decimal
  import opened Slots

  /** One busy period of the calendar, as minutes after midnight of the queried day. */
  datatype BusyInterval = BusyInterval(start: int, end: int)

  /** `new Date(`${day}T${slot.startTime}`)`: invalid (`None`) unless the label is `HH:mm`. */
  function SlotStart(slot: TimeSlot): Option<int> {
    ParseIsoTime(slot.startTime)
  }

  function SlotEnd(slot: TimeSlot): Option<int> {
    ParseIsoTime(slot.endTime)
  }

  /** The minute the slot's start label stands for, however many digits its hour has. */
  function LabelStart(slot: TimeSlot): Option<int> {
    ParseClock(slot.startTime)
  }

  function LabelEnd(slot: TimeSlot): Option<int> {
    ParseClock(slot.endTime)
  }

  /**
   * The two-clause test of the edge function. A bound that does not read as a
   * time of day makes its clause false, as every comparison with an invalid
   * JavaScript Date is false.
   */
  predicate Overlaps(slot: TimeSlot, b: BusyInterval) {
    || (SlotStart(slot).Some? && SlotStart(slot).value >= b.start && SlotStart(slot).value < b.end)
    || (SlotEnd(slot).Some? && SlotEnd(slot).value > b.start && SlotEnd(slot).value <= b.end)
  }

  /** `busySlots.some(...)`: whether any busy interval overlaps the slot. */
  function AnyOverlap(slot: TimeSlot, busy: seq<BusyInterval>): (r: bool)
    ensures r <==> exists i :: 0 <= i < |busy| && Overlaps(slot, busy[i])
    decreases |busy|
  {
    if |busy| == 0 then false
    else if Overlaps(slot, busy[0]) then true
    else
      var rest := AnyOverlap(slot, busy[1..]);
      assert forall i :: 1 <= i < |busy| ==> busy[i] == busy[1..][i - 1];
      rest
  }

  /** `{ ...slot, isAvailable: !isOverlapping }`. */
  function MarkSlot(slot: TimeSlot, busy: seq<BusyInterval>): (r: TimeSlot)
    ensures r.id == slot.id && r.startTime == slot.startTime && r.endTime == slot.endTime
    ensures r.isAvailable <==> forall b :: b in busy ==> !Overlaps(slot, b)
  {
    slot.(isAvailable := !AnyOverlap(slot, busy))
  }

  /**
   * `slots.map(...)`: the slots in their order with nothing but their flag
   * recomputed; a slot is available exactly when no busy interval overlaps it.
   */
  function MarkAvailability(slots: seq<TimeSlot>, busy: seq<BusyInterval>): (r: seq<TimeSlot>)
    ensures |r| == |slots|
    ensures forall i :: 0 <= i < |r| ==>
      && r[i] == slots[i].(isAvailable := r[i].isAvailable)
      && (r[i].isAvailable <==> forall b :: b in busy ==> !Overlaps(slots[i], b))
  {
    seq(|slots|, i requires 0 <= i < |slots| => MarkSlot(slots[i], busy))
  }

  /** With no busy intervals, e.g. when the calendar has no entry in the reply, every slot is available. */
  lemma NoBusyKeepsAllAvailable(slots: seq<TimeSlot>)
    ensures forall i :: 0 <= i < |slots| ==> MarkAvailability(slots, [])[i].isAvailable
  {
  }

  /**
   * More busy intervals can only close slots: a slot available against a
   * longer busy list is available against any list of some of its intervals.
   */
  lemma MarkingMonotonic(slots: seq<TimeSlot>, busy: seq<BusyInterval>, more: seq<BusyInterval>)
    requires forall b :: b in busy ==> b in more
    ensures forall i :: 0 <= i < |slots| ==>
      MarkAvailability(slots, more)[i].isAvailable ==> MarkAvailability(slots, busy)[i].isAvailable
  {
  }

  /**
   * Marking reads only the labels, never the previous flag: marking again, with
   * the same or other busy data, is the same as marking the original slots.
   * In particular two queries over the same busy data agree.
   */
  lemma RemarkingIgnoresPreviousFlags(slots: seq<TimeSlot>, first: seq<BusyInterval>, second: seq<BusyInterval>)
    ensures MarkAvailability(MarkAvailability(slots, first), second) == MarkAvailability(slots, second)
  {
  }

  /** A busy interval that ends where the slot starts, or starts where it ends, leaves the slot free. */
  lemma TouchingBoundaryDoesNotOverlap(slot: TimeSlot, b: BusyInterval)
    requires SlotStart(slot).Some? && SlotEnd(slot).Some?
    requires SlotStart(slot).value < SlotEnd(slot).value
    requires b.end == SlotStart(slot).value || b.start == SlotEnd(slot).value
    ensures !Overlaps(slot, b)
  {
  }

  /**
   * A busy interval strictly inside a slot satisfies neither clause, so it does
   * not close the slot (slot 10:00-11:00 against busy 10:30-10:45, say).
   */
  lemma InteriorBusyDoesNotOverlap(slot: TimeSlot, b: BusyInterval)
    requires SlotStart(slot).Some? && SlotEnd(slot).Some?
    requires SlotStart(slot).value < b.start && b.end < SlotEnd(slot).value
    ensures !Overlaps(slot, b)
  {
  }

  /** The busy interval covers minute `t`. */
  predicate Covers(b: BusyInterval, t: int) {
    b.start <= t < b.end
  }

  /** The span [s, e) and the busy interval share a minute. */
  predicate ShareMinute(s: int, e: int, b: BusyInterval) {
    exists t :: s <= t < e && Covers(b, t)
  }

  /**
   * Whatever the edge function's test finds busy does share time with the
   * busy interval: the test never closes a slot without cause.
   */
  lemma OverlapSharesMinute(slot: TimeSlot, b: BusyInterval)
    requires SlotStart(slot).Some? && SlotEnd(slot).Some?
    requires SlotStart(slot).value < SlotEnd(slot).value
    requires Overlaps(slot, b)
    ensures ShareMinute(SlotStart(slot).value, SlotEnd(slot).value, b)
  {
    var s, e := SlotStart(slot).value, SlotEnd(slot).value;
    if s >= b.start && s < b.end {
      assert s <= s < e && Covers(b, s);
    } else {
      var t := if s < b.start then b.start else s;
      assert s <= t < e && Covers(b, t);
    }
  }

  // ---- The intended test ----

  /** Half-open intersection of [s, e) with [b.start, b.end), both non-empty. */
  predicate Intersects(s: int, e: int, b: BusyInterval) {
    s < e && b.start < b.end && s < b.end && b.start < e
  }

  lemma IntersectsIffShareMinute(s: int, e: int, b: BusyInterval)
    ensures Intersects(s, e, b) <==> ShareMinute(s, e, b)
  {
    if Intersects(s, e, b) {
      var t := if s < b.start then b.start else s;
      assert s <= t < e && Covers(b, t);
    }
  }

  predicate SlotIntersects(slot: TimeSlot, b: BusyInterval) {
    LabelStart(slot).Some? && LabelEnd(slot).Some? && Intersects(LabelStart(slot).value, LabelEnd(slot).value, b)
  }

  /** For one slot, no busy interval intersects it iff none shares a minute with it. */
  lemma NoIntersectionIffNoSharedMinute(slot: TimeSlot, busy: seq<BusyInterval>)
    requires LabelStart(slot).Some? && LabelEnd(slot).Some?
    ensures (forall b :: b in busy ==> !SlotIntersects(slot, b)) <==>
      !exists b :: b in busy && ShareMinute(LabelStart(slot).value, LabelEnd(slot).value, b)
  {
    forall b | b in busy
      ensures SlotIntersects(slot, b) <==> ShareMinute(LabelStart(slot).value, LabelEnd(slot).value, b)
    {
      IntersectsIffShareMinute(LabelStart(slot).value, LabelEnd(slot).value, b);
    }
  }

  /**
   * The corrected marking: the slots in their order with only their flag
   * recomputed; a slot whose labels read as times is closed exactly when some
   * busy interval shares at least one minute with it.
   */
  function MarkAvailabilityIntended(slots: seq<TimeSlot>, busy: seq<BusyInterval>): (r: seq<TimeSlot>)
    ensures |r| == |slots|
    ensures forall i :: 0 <= i < |r| ==> r[i] == slots[i].(isAvailable := r[i].isAvailable)
    ensures forall i :: 0 <= i < |r| && LabelStart(slots[i]).Some? && LabelEnd(slots[i]).Some? ==>
      (!r[i].isAvailable <==>
         exists b :: b in busy && ShareMinute(LabelStart(slots[i]).value, LabelEnd(slots[i]).value, b))
  {
    forall i | 0 <= i < |slots| && LabelStart(slots[i]).Some? && LabelEnd(slots[i]).Some? {
      NoIntersectionIffNoSharedMinute(slots[i], busy);
    }
    seq(|slots|, i requires 0 <= i < |slots| =>
      slots[i].(isAvailable := forall b :: b in busy ==> !SlotIntersects(slots[i], b)))
  }

  /**
   * For a non-empty busy interval and a slot of positive length, the two
   * tests disagree exactly when the busy interval lies strictly inside the slot.
   */
  lemma TestsDifferOnlyOnInterior(slot: TimeSlot, b: BusyInterval)
    requires SlotStart(slot).Some? && SlotEnd(slot).Some?
    requires SlotStart(slot).value < SlotEnd(slot).value
    requires b.start < b.end
    ensures Overlaps(slot, b) ==> SlotIntersects(slot, b)
    ensures (SlotIntersects(slot, b) && !Overlaps(slot, b)) <==>
      (SlotStart(slot).value < b.start && b.end < SlotEnd(slot).value)
  {
  }
}
