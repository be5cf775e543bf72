/** `POST /api/bookings` of server.js, the older server: the time is padded
    to `HH:MM:SS`, the customer is recorded before the booking is saved
    (and a failure there is swallowed), a missing table number is drawn at
    random, and neither the slot policy nor confirmed bookings are
    consulted. */
module LegacyBookings {
  import opened JsText
  import opened JsValues
  import opened TimeFormat
  import opened BookingSchema
  import opened Payload
  import opened Customers

  datatype LegacyOutcome =
    | Saved(booking: Booking)
    | Refused

  /** The HTTP status each outcome is answered with. */
  function LegacyStatus(o: LegacyOutcome): int {
    if o.Saved? then 200 else 500
  }

  /** `9:30` is padded to `09:30:00` here, where server-mongodb.js keeps
      `9:30:00`. */
  lemma LegacyPadsSingleDigitHour(raw: string, t: string)
    requires raw == "9:30" && LegacyTimeOf(Some(raw), t)
    ensures t == "09:30:00"
    ensures NormalizeTime(Some(raw)) == "9:30:00"
  {
    BeforeOfNoSep(raw, '-');
    assert !EndsWithMeridiem(raw);
    assert IsHm(raw);
    NormalizeTimeDoesNotPad();
  }

  /** The bookings and customers collections as server.js uses them. */
  class LegacyReservations {
    var bookings: seq<Booking>
    var customers: seq<Customer>

    constructor ()
      ensures bookings == [] && customers == []
    {
      bookings := [];
      customers := [];
    }

    /** The customer step, run before the booking is validated: an
        existing customer is updated with `findByIdAndUpdate`, otherwise a
        new one is saved. */
    method RecordCustomer(name: string, email: string, phone: Option<string>, date: Option<string>, today: string)
      modifies this
      ensures customers == UpsertedLegacy(old(customers), name, email, phone, date, today)
      ensures bookings == old(bookings)
    {
      var found := FindByEmail(customers, email);
      if found.Some? {
        var existing := customers[found.value];
        var updated := existing.(visits := Some(NextVisits(existing.visits)), lastVisit := Some(today),
                                 name := name, phone := phone);
        customers := customers[found.value := updated];
      } else {
        customers := customers + [Customer(name, email, phone, Some(1), date)];
      }
    }

    /** `new Booking(fields).save()`: the record is validated and, when
        the schema accepts it, appended. */
    method SaveBooking(fields: BookingFields) returns (outcome: LegacyOutcome)
      modifies this
      ensures customers == old(customers)
      ensures outcome.Refused? <==> Cast(fields).None?
      ensures outcome.Refused? ==> bookings == old(bookings)
      ensures outcome.Saved? ==> Cast(fields) == Some(outcome.booking) && bookings == old(bookings) + [outcome.booking]
    {
      var b := Cast(fields);
      if b.None? {
        return Refused;
      }
      bookings := bookings + [b.value];
      outcome := Saved(b.value);
    }

    /** `POST /api/bookings`. `today` is the server's current date,
        `randomTable` the table drawn when none is given, and
        `customerWriteFails` whether the customer step throws. */
    method CreateBooking(req: BookingRequest, today: string, randomTable: int, customerWriteFails: bool)
      returns (outcome: LegacyOutcome)
      modifies this
      ensures customers == if customerWriteFails then old(customers)
                           else UpsertedLegacy(old(customers), NameLegacy(req), Email(req), Phone(req), req.date, today)
      ensures outcome.Refused? <==> !(req.date.Some? && 1 <= Guests(req) <= 20 && ParseStatus(StatusText(req)).Some?)
      ensures outcome.Refused? ==> bookings == old(bookings)
      ensures outcome.Saved? ==>
                && LegacyTimeOf(req.time, outcome.booking.time)
                && Cast(FieldsLegacy(req, outcome.booking.time, randomTable)) == Some(outcome.booking)
                && outcome.booking.customerName == NameLegacy(req)
                && bookings == old(bookings) + [outcome.booking]
    {
      var time := NormalizeTimeLegacy(req.time);
      var fields := FieldsLegacy(req, time, randomTable);
      if !customerWriteFails {
        RecordCustomer(NameLegacy(req), Email(req), Phone(req), req.date, today);
      }
      outcome := SaveBooking(fields);
      LegacyFieldsAccepted(req, time, randomTable);
      if outcome.Saved? {
        CastSpec(fields);
        TrimmedTrimIsIdentity(NameLegacy(req));
        assert outcome.booking.time == time;
      }
    }
  }
}
