/**
 * The browser helpers: the stored authorisation code, the two calls that
 * refuse without it, and the mock slot list they answer with. The
 * `google_auth_code` storage entry is a field of `AuthStorage`.
 */
module ClientAuth {
  import opened Results
  import opened Decimal
  import opened Slots

  const NotAuthenticated: string := "Not authenticated"

  /** A mock slot is available when its `Math.random()` draw exceeds this. */
  const AvailabilityThreshold: real := 0.3

  /** The mock day: the hour template, available where the hour's draw exceeds 0.3. */
  function MockSlots(isoDate: string, draws: seq<real>): seq<TimeSlot>
    requires |draws| == SlotsPerDay
  {
    HourSlots(isoDate, seq(SlotsPerDay, k requires 0 <= k < SlotsPerDay => draws[k] > AvailabilityThreshold))
  }

  /**
   * The mock generator's counting loop over hours 9 to 16. `isoDate` is the
   * date's `toISOString()`; `draws` are the eight values `Math.random()` returns.
   */
  method GenerateMockTimeSlots(isoDate: string, draws: seq<real>) returns (slots: seq<TimeSlot>)
    requires |draws| == SlotsPerDay
    ensures slots == MockSlots(isoDate, draws)
  {
    slots := [];
    var startHour, endHour := OpeningHour, ClosingHour;
    var hour := startHour;
    while hour < endHour
      invariant startHour <= hour <= endHour
      invariant |slots| == hour - startHour
      invariant forall k :: 0 <= k < |slots| ==> slots[k] == MockSlots(isoDate, draws)[k]
    {
      slots := slots + [TimeSlot(SlotId(isoDate, hour), ClockLabel(hour), ClockLabel(hour + 1),
                                 draws[hour - startHour] > AvailabilityThreshold)];
      hour := hour + 1;
    }
  }

  /**
   * The mock day has eight one-hour slots starting at 9 to 16 in order, the
   * k-th available iff its draw exceeds 0.3, with pairwise distinct ids.
   */
  lemma MockSlotsShape(isoDate: string, draws: seq<real>)
    requires |draws| == SlotsPerDay
    ensures |MockSlots(isoDate, draws)| == 8
    ensures forall k :: 0 <= k < SlotsPerDay ==>
      && ParseClock(MockSlots(isoDate, draws)[k].startTime) == Some((OpeningHour + k) * 60)
      && ParseClock(MockSlots(isoDate, draws)[k].endTime) == Some((OpeningHour + k + 1) * 60)
      && (MockSlots(isoDate, draws)[k].isAvailable <==> draws[k] > AvailabilityThreshold)
    ensures forall i, j :: 0 <= i < j < SlotsPerDay ==> MockSlots(isoDate, draws)[i].id != MockSlots(isoDate, draws)[j].id
  {
    var avail := seq(SlotsPerDay, k requires 0 <= k < SlotsPerDay => draws[k] > AvailabilityThreshold);
    HourSlotsShape(isoDate, avail);
    HourSlotsIdsDistinct(isoDate, avail);
  }

  /** The browser's storage of the authorisation code. */
  class AuthStorage {
    /** The `google_auth_code` entry; `None` when nothing is stored. */
    var googleAuthCode: Option<string>

    constructor (stored: Option<string>)
      ensures googleAuthCode == stored
    {
      googleAuthCode := stored;
    }

    /** `!authCode` fails for a missing entry and for the empty string alike. */
    predicate IsAuthenticated()
      reads this
    {
      googleAuthCode.Some? && googleAuthCode.value != ""
    }

    /** Stores the code and reports success; an empty code leaves the store unauthenticated. */
    method HandleAuthCallback(code: string) returns (ok: bool)
      modifies this
      ensures googleAuthCode == Some(code)
      ensures ok
      ensures IsAuthenticated() <==> code != ""
    {
      googleAuthCode := Some(code);
      ok := true;
    }

    /**
     * Refuses with "Not authenticated" unless a code is stored, and otherwise
     * answers the mock day for `startDate`. The stored code is left as it was.
     */
    method GetAvailableSlots(calendarId: string, startDateIso: string, endDateIso: string, draws: seq<real>)
      returns (r: Result<seq<TimeSlot>, string>)
      requires |draws| == SlotsPerDay
      ensures r.Err? <==> !IsAuthenticated()
      ensures r.Err? ==> r.error == NotAuthenticated
      ensures r.Ok? ==> r.value == MockSlots(startDateIso, draws)
    {
      var authCode := googleAuthCode;
      if authCode.None? || authCode.value == "" {
        return Err(NotAuthenticated);
      }
      var slots := GenerateMockTimeSlots(startDateIso, draws);
      r := Ok(slots);
    }

    /**
     * Refuses with "Not authenticated" unless a code is stored, and otherwise
     * reports success without booking anything. The stored code is left as it was.
     */
    method BookAppointment(calendarId: string, startTime: string, endTime: string, summary: string, description: string)
      returns (r: Result<bool, string>)
      ensures r.Err? <==> !IsAuthenticated()
      ensures r.Err? ==> r.error == NotAuthenticated
      ensures r.Ok? ==> r.value
    {
      var authCode := googleAuthCode;
      if authCode.None? || authCode.value == "" {
        return Err(NotAuthenticated);
      }
      r := Ok(true);
    }
  }

  /**
   * The two states seen from a caller: before the callback both calls refuse
   * (with nothing stored), and after a callback with a non-empty code both
   * succeed.
   */
  method SignInThenUse(code: string, isoDate: string, draws: seq<real>)
    returns (before: Result<seq<TimeSlot>, string>, bookedBefore: Result<bool, string>,
             after: Result<seq<TimeSlot>, string>, booked: Result<bool, string>)
    requires |draws| == SlotsPerDay
    requires code != ""
    ensures before == Err(NotAuthenticated)
    ensures bookedBefore == Err(NotAuthenticated)
    ensures after == Ok(MockSlots(isoDate, draws))
    ensures booked == Ok(true)
  {
    var storage := new AuthStorage(None);
    before := storage.GetAvailableSlots("primary", isoDate, isoDate, draws);
    bookedBefore := storage.BookAppointment("primary", isoDate, isoDate, "", "");
    var ok := storage.HandleAuthCallback(code);
    after := storage.GetAvailableSlots("primary", isoDate, isoDate, draws);
    booked := storage.BookAppointment("primary", isoDate, isoDate, "", "");
    assert storage.googleAuthCode == Some(code);
  }
}
