/**
 * The calendar edge function: the request dispatcher, the day template it
 * builds for `getAvailableSlots`, and the error envelope every failure ends in.
 * The Google free/busy query and event insertion are inputs (`Upstream`).
 */
module Gateway {
  import opened Results
  import opened Decimal
  import opened Slots
  import opened BusyMarking

  // ---- The day template ----

  const AllAvailable: seq<bool> := [true, true, true, true, true, true, true, true]

  /** The day's eight slots before marking, all available, ids prefixed by the request's date. */
  function Template(date: string): seq<TimeSlot> {
    HourSlots(date, AllAvailable)
  }

  /** The loop over hours 9 to 16 that pushes one slot per hour. */
  method BuildTemplate(date: string) returns (slots: seq<TimeSlot>)
    ensures slots == Template(date)
  {
    slots := [];
    var hour := OpeningHour;
    while hour < ClosingHour
      invariant OpeningHour <= hour <= ClosingHour
      invariant |slots| == hour - OpeningHour
      invariant forall k :: 0 <= k < |slots| ==> slots[k] == Template(date)[k]
    {
      slots := slots + [TimeSlot(SlotId(date, hour), ClockLabel(hour), ClockLabel(hour + 1), true)];
      hour := hour + 1;
    }
  }

  /**
   * The template has exactly eight slots, for start hours 9 to 16 in ascending
   * order, each one hour long, all available, with pairwise distinct ids
   * `${date}-${hour}`. Read as Dates, every bound is valid except the start of
   * the 9:00 slot.
   */
  lemma TemplateShape(date: string)
    ensures |Template(date)| == 8
    ensures forall k :: 0 <= k < SlotsPerDay ==>
      && Template(date)[k].id == SlotId(date, OpeningHour + k)
      && LabelStart(Template(date)[k]) == Some((OpeningHour + k) * 60)
      && LabelEnd(Template(date)[k]) == Some((OpeningHour + k + 1) * 60)
      && Template(date)[k].isAvailable
    ensures forall k :: 0 <= k < SlotsPerDay ==>
      && SlotStart(Template(date)[k]) == (if k == 0 then None else Some((OpeningHour + k) * 60))
      && SlotEnd(Template(date)[k]) == Some((OpeningHour + k + 1) * 60)
    ensures forall i, j :: 0 <= i < j < SlotsPerDay ==> Template(date)[i].id != Template(date)[j].id
  {
    HourSlotsShape(date, AllAvailable);
    HourSlotsIsoBounds(date, AllAvailable);
    HourSlotsIdsDistinct(date, AllAvailable);
  }

  /**
   * A busy interval covering exactly one business hour closes that hour's slot
   * and no other.
   */
  lemma OneHourBusyClosesExactlyItsSlot(date: string, hour: nat, k: nat)
    requires OpeningHour <= hour < ClosingHour && k < SlotsPerDay
    ensures |MarkAvailability(Template(date), [BusyInterval(hour * 60, (hour + 1) * 60)])| == SlotsPerDay
    ensures MarkAvailability(Template(date), [BusyInterval(hour * 60, (hour + 1) * 60)])[k].isAvailable
      <==> OpeningHour + k != hour
  {
    TemplateShape(date);
    var b := BusyInterval(hour * 60, (hour + 1) * 60);
    assert forall x :: x in [b] <==> x == b;
  }

  /**
   * As written, a meeting strictly inside a business hour (minutes 30 to 45)
   * leaves that hour's slot available; the intended marking closes it.
   */
  lemma InteriorMeetingLeavesSlotAvailable(date: string, hour: nat)
    requires OpeningHour <= hour < ClosingHour
    ensures |Template(date)| == SlotsPerDay
    ensures MarkAvailability(Template(date), [BusyInterval(hour * 60 + 30, hour * 60 + 45)])[hour - OpeningHour].isAvailable
    ensures !MarkAvailabilityIntended(Template(date), [BusyInterval(hour * 60 + 30, hour * 60 + 45)])[hour - OpeningHour].isAvailable
  {
    TemplateShape(date);
    var b := BusyInterval(hour * 60 + 30, hour * 60 + 45);
    var slot := Template(date)[hour - OpeningHour];
    assert LabelStart(slot) == Some(hour * 60) && LabelEnd(slot) == Some(hour * 60 + 60);
    assert SlotIntersects(slot, b);
  }

  /**
   * As written, the 9:00 slot's start is an invalid Date, so a meeting that
   * begins by 9:00 and ends before 10:00 (9:00-9:30, 8:30-9:30) satisfies
   * neither clause and leaves the slot available; the intended marking closes it.
   */
  lemma EarlyMeetingLeavesNineOClockOpen(date: string, b: BusyInterval)
    requires b.start <= OpeningHour * 60 < b.end < (OpeningHour + 1) * 60
    ensures |Template(date)| == SlotsPerDay
    ensures MarkAvailability(Template(date), [b])[0].isAvailable
    ensures !MarkAvailabilityIntended(Template(date), [b])[0].isAvailable
  {
    TemplateShape(date);
    var slot := Template(date)[0];
    assert SlotStart(slot).None? && SlotEnd(slot) == Some(600);
    assert !Overlaps(slot, b);
    assert SlotIntersects(slot, b);
    assert forall x :: x in [b] <==> x == b;
  }

  // ---- The two-clause test on each template slot, the 9:00 slot included ----

  /**
   * On every slot of the template the two-clause test is sound: when it
   * closes slot k, some busy interval shares a minute with hour 9 + k.
   */
  lemma TemplateOverlapSharesMinute(date: string, k: nat, b: BusyInterval)
    requires k < SlotsPerDay
    ensures |Template(date)| == SlotsPerDay
    ensures Overlaps(Template(date)[k], b) ==>
      ShareMinute((OpeningHour + k) * 60, (OpeningHour + k + 1) * 60, b)
  {
    TemplateShape(date);
    var s, e := (OpeningHour + k) * 60, (OpeningHour + k + 1) * 60;
    if Overlaps(Template(date)[k], b) {
      var t := if s < b.start then b.start else s;
      assert s <= t < e && Covers(b, t);
    }
  }

  /** Marking the template never closes a slot without a busy interval sharing a minute with it. */
  lemma TemplateMarkingSound(date: string, busy: seq<BusyInterval>, k: nat)
    requires k < SlotsPerDay
    ensures |MarkAvailability(Template(date), busy)| == SlotsPerDay
    ensures !MarkAvailability(Template(date), busy)[k].isAvailable ==>
      exists b :: b in busy && ShareMinute((OpeningHour + k) * 60, (OpeningHour + k + 1) * 60, b)
  {
    TemplateShape(date);
    if !MarkAvailability(Template(date), busy)[k].isAvailable {
      var b :| b in busy && Overlaps(Template(date)[k], b);
      TemplateOverlapSharesMinute(date, k, b);
    }
  }

  /**
   * A busy interval that ends where a template slot starts, or starts where it
   * ends, leaves that slot available, whether or not its start is a valid Date.
   */
  lemma TemplateTouchingBoundaryDoesNotOverlap(date: string, k: nat, b: BusyInterval)
    requires k < SlotsPerDay
    requires b.end == (OpeningHour + k) * 60 || b.start == (OpeningHour + k + 1) * 60
    ensures |Template(date)| == SlotsPerDay
    ensures !Overlaps(Template(date)[k], b)
  {
    TemplateShape(date);
  }

  /** A busy interval strictly inside a template slot's hour leaves that slot available. */
  lemma TemplateInteriorBusyDoesNotOverlap(date: string, k: nat, b: BusyInterval)
    requires k < SlotsPerDay
    requires (OpeningHour + k) * 60 < b.start && b.end < (OpeningHour + k + 1) * 60
    ensures |Template(date)| == SlotsPerDay
    ensures !Overlaps(Template(date)[k], b)
  {
    TemplateShape(date);
  }

  /**
   * On the template, for a non-empty busy interval, the two-clause test implies
   * the corrected one. They differ on slots 10:00 to 16:00 exactly when the busy
   * interval lies strictly inside the hour, and on the 9:00 slot exactly when
   * the busy interval ends strictly inside the hour.
   */
  lemma TemplateTestsDiffer(date: string, k: nat, b: BusyInterval)
    requires k < SlotsPerDay
    requires b.start < b.end
    ensures |Template(date)| == SlotsPerDay
    ensures Overlaps(Template(date)[k], b) ==> SlotIntersects(Template(date)[k], b)
    ensures (SlotIntersects(Template(date)[k], b) && !Overlaps(Template(date)[k], b)) <==>
      if k == 0 then OpeningHour * 60 < b.end < (OpeningHour + 1) * 60
      else (OpeningHour + k) * 60 < b.start && b.end < (OpeningHour + k + 1) * 60
  {
    TemplateShape(date);
  }

  // ---- Requests, upstream replies, responses ----

  /** The JSON body's fields; a field the body lacks is `None`. */
  datatype Request = Request(
    action: Option<string>,
    date: Option<string>,
    calendarId: Option<string>,
    startTime: Option<string>,
    endTime: Option<string>,
    summary: Option<string>,
    description: Option<string>)

  /** The free/busy query for the whole day of `date` on one calendar. */
  datatype FreeBusyQuery = FreeBusyQuery(date: string, calendarId: Option<string>)

  /** One calendar's entry in a free/busy reply; `busy` may be absent. */
  datatype CalendarBusy = CalendarBusy(busy: Option<seq<BusyInterval>>)

  /** A free/busy reply: calendars by id, possibly absent altogether. */
  datatype FreeBusyReply = FreeBusyReply(calendars: Option<map<string, CalendarBusy>>)

  /** The event handed to the calendar's insert call. */
  datatype EventBody = EventBody(
    calendarId: Option<string>,
    summary: Option<string>,
    description: Option<string>,
    start: Option<string>,
    end: Option<string>)

  /** The event the calendar reports as created. */
  datatype EventData = EventData(id: string)

  /** The two calls into the calendar API; an `Err` is the message of what they throw. */
  datatype Upstream = Upstream(
    freeBusy: FreeBusyQuery -> Result<FreeBusyReply, string>,
    insert: EventBody -> Result<EventData, string>)

  /** The response body: `{ slots }`, `{ event }` or `{ error }`. */
  datatype Response = SlotsReply(slots: seq<TimeSlot>) | EventReply(event: EventData) | ErrorReply(error: string)

  /** The HTTP status: every caught error is answered with 500. */
  function Status(r: Response): int {
    if r.ErrorReply? then 500 else 200
  }

  const GetAvailableSlots: string := "getAvailableSlots"
  const BookAppointment: string := "bookAppointment"
  const NoActionMessage: string := "No action specified"
  /** What `toISOString` throws for the invalid Date made from an absent `date`. */
  const InvalidDateMessage: string := "Invalid time value"
  /** What reading the case block's uninitialised `startTime` throws. */
  const UninitialisedStartTimeMessage: string := "Cannot access 'startTime' before initialization"

  /**
   * The action switch: a missing or empty action and an unknown action are
   * errors, the two known actions go to their handlers.
   */
  function Dispatch(action: Option<string>, slotsReply: Response, bookingReply: Response): (r: Response)
    ensures (action.None? || action == Some("")) ==> r == ErrorReply(NoActionMessage)
    ensures action == Some(GetAvailableSlots) ==> r == slotsReply
    ensures action == Some(BookAppointment) ==> r == bookingReply
    ensures action.Some? && action.value !in {"", GetAvailableSlots, BookAppointment} ==>
      r == ErrorReply("Unknown action: " + action.value)
  {
    match action
    case None => ErrorReply(NoActionMessage)
    case Some(a) =>
      if a == "" then ErrorReply(NoActionMessage)
      else if a == GetAvailableSlots then slotsReply
      else if a == BookAppointment then bookingReply
      else ErrorReply("Unknown action: " + a)
  }

  /** The property key a JavaScript lookup uses for `calendarId`; an absent id reads as "undefined". */
  function CalendarKey(calendarId: Option<string>): string {
    match calendarId
    case None => "undefined"
    case Some(id) => id
  }

  /** `response.data.calendars?.[calendarId]?.busy || []`. */
  function BusyFor(reply: FreeBusyReply, calendarId: Option<string>): seq<BusyInterval> {
    match reply.calendars
    case None => []
    case Some(calendars) =>
      if CalendarKey(calendarId) !in calendars then []
      else match calendars[CalendarKey(calendarId)].busy
        case None => []
        case Some(busy) => busy
  }

  /** The `getAvailableSlots` branch, with the marking it applies passed in. */
  function QuerySlots(req: Request, up: Upstream, mark: (seq<TimeSlot>, seq<BusyInterval>) -> seq<TimeSlot>): Response {
    match req.date
    case None => ErrorReply(InvalidDateMessage)
    case Some(date) =>
      match up.freeBusy(FreeBusyQuery(date, req.calendarId))
      case Err(message) => ErrorReply(message)
      case Ok(reply) => SlotsReply(mark(Template(date), BusyFor(reply, req.calendarId)))
  }

  /** The handler as written; `bookAppointment` reads `startTime` before it is initialised. */
  function Respond(req: Request, up: Upstream): Response {
    Dispatch(req.action, QuerySlots(req, up, MarkAvailability), ErrorReply(UninitialisedStartTimeMessage))
  }

  /** The event built from the request's own fields. */
  function BookingBody(req: Request): EventBody {
    EventBody(req.calendarId, req.summary, req.description, req.startTime, req.endTime)
  }

  /** The handler with the booking reading the request's times and the intersection test corrected. */
  function RespondCorrected(req: Request, up: Upstream): Response {
    var booking :=
      match up.insert(BookingBody(req))
      case Ok(event) => EventReply(event)
      case Err(message) => ErrorReply(message);
    Dispatch(req.action, QuerySlots(req, up, MarkAvailabilityIntended), booking)
  }

  // ---- Properties of the handler ----

  /**
   * A request without an action, or with one the function does not know, is
   * answered with an error envelope and status 500.
   */
  lemma BadActionIsError(req: Request, up: Upstream)
    requires req.action.None? || req.action.value !in {GetAvailableSlots, BookAppointment}
    ensures Status(Respond(req, up)) == 500
    ensures Respond(req, up) ==
      if req.action.None? || req.action.value == "" then ErrorReply(NoActionMessage)
      else ErrorReply("Unknown action: " + req.action.value)
  {
  }

  /**
   * `getAvailableSlots` with a date and a free/busy reply answers the eight
   * template slots in order, each closed exactly when one of the calendar's
   * busy intervals overlaps it.
   */
  lemma SlotsReplyShape(req: Request, up: Upstream, reply: FreeBusyReply)
    requires req.action == Some(GetAvailableSlots) && req.date.Some?
    requires up.freeBusy(FreeBusyQuery(req.date.value, req.calendarId)) == Ok(reply)
    ensures Respond(req, up).SlotsReply?
    ensures |Respond(req, up).slots| == 8
    ensures forall k :: 0 <= k < SlotsPerDay ==>
      && Respond(req, up).slots[k].id == SlotId(req.date.value, OpeningHour + k)
      && LabelStart(Respond(req, up).slots[k]) == Some((OpeningHour + k) * 60)
      && LabelEnd(Respond(req, up).slots[k]) == Some((OpeningHour + k + 1) * 60)
      && (Respond(req, up).slots[k].isAvailable <==>
            forall b :: b in BusyFor(reply, req.calendarId) ==> !Overlaps(Template(req.date.value)[k], b))
  {
    TemplateShape(req.date.value);
  }

  /** When the reply has no busy list for the calendar, every slot is available. */
  lemma NoBusyListAllAvailable(req: Request, up: Upstream, reply: FreeBusyReply)
    requires req.action == Some(GetAvailableSlots) && req.date.Some?
    requires up.freeBusy(FreeBusyQuery(req.date.value, req.calendarId)) == Ok(reply)
    requires reply.calendars.None? || CalendarKey(req.calendarId) !in reply.calendars.value
      || reply.calendars.value[CalendarKey(req.calendarId)].busy.None?
    ensures Respond(req, up).SlotsReply?
    ensures forall k :: 0 <= k < |Respond(req, up).slots| ==> Respond(req, up).slots[k].isAvailable
  {
  }

  /** A failing free/busy query is answered with its message and status 500. */
  lemma UpstreamFailureIsError(req: Request, up: Upstream, message: string)
    requires req.action == Some(GetAvailableSlots) && req.date.Some?
    requires up.freeBusy(FreeBusyQuery(req.date.value, req.calendarId)) == Err(message)
    ensures Respond(req, up) == ErrorReply(message) && Status(Respond(req, up)) == 500
  {
  }

  /**
   * A one-hour meeting at 14:00 on 2024-06-10 in calendar "primary" closes
   * the 14:00 slot and leaves the seven others open.
   */
  lemma TwoPmMeetingClosesOnlyItsSlot(up: Upstream)
    requires up.freeBusy(FreeBusyQuery("2024-06-10", Some("primary")))
      == Ok(FreeBusyReply(Some(map["primary" := CalendarBusy(Some([BusyInterval(14 * 60, 15 * 60)]))])))
    ensures var r := Respond(Request(Some(GetAvailableSlots), Some("2024-06-10"), Some("primary"), None, None, None, None), up);
      && r.SlotsReply? && |r.slots| == 8
      && (forall k :: 0 <= k < 8 ==> (r.slots[k].isAvailable <==> k != 5))
  {
    var req := Request(Some(GetAvailableSlots), Some("2024-06-10"), Some("primary"), None, None, None, None);
    assert BusyFor(up.freeBusy(FreeBusyQuery("2024-06-10", Some("primary"))).value, req.calendarId)
      == [BusyInterval(14 * 60, 15 * 60)];
    forall k | 0 <= k < 8
      ensures Respond(req, up).slots[k].isAvailable <==> k != 5
    {
      OneHourBusyClosesExactlyItsSlot("2024-06-10", 14, k);
    }
  }

  /**
   * As written, `bookAppointment` never reaches the calendar: whatever the
   * request and the upstream, the answer is the uninitialised-binding error.
   */
  lemma BookingAlwaysFails(req: Request, up: Upstream)
    requires req.action == Some(BookAppointment)
    ensures Respond(req, up) == ErrorReply(UninitialisedStartTimeMessage)
    ensures Status(Respond(req, up)) == 500
  {
  }

  /**
   * Corrected, `bookAppointment` inserts an event with the request's calendar,
   * summary, description and times, and answers the created event or the
   * calendar's error.
   */
  lemma CorrectedBookingForwardsRequest(req: Request, up: Upstream)
    requires req.action == Some(BookAppointment)
    ensures BookingBody(req).start == req.startTime && BookingBody(req).end == req.endTime
    ensures BookingBody(req).calendarId == req.calendarId
    ensures up.insert(BookingBody(req)).Ok? ==> RespondCorrected(req, up) == EventReply(up.insert(BookingBody(req)).value)
    ensures up.insert(BookingBody(req)).Err? ==> RespondCorrected(req, up) == ErrorReply(up.insert(BookingBody(req)).error)
  {
  }
}
