/** `POST /api/bookings` of server-mongodb.js: the admission pipeline that
    normalizes the time, consults the admin's slot policy, refuses a second
    confirmed booking at the same date and time, stores the booking and
    then records the customer. */
module Admission {
  import opened JsValues
  import opened TimeFormat
  import opened Slots
  import opened TimeSlotSettings
  import opened BookingSchema
  import opened Payload
  import opened Customers

  /** Which of the guarded database calls throw for this request. The slot
      lookup and the conflict lookup fail open; a failing customer write
      gives a 500 after the booking is stored. */
  datatype Faults = Faults(slotLookupFails: bool, conflictLookupFails: bool, customerWriteFails: bool)

  datatype Outcome =
    | Created(booking: Booking)
    | SlotUnavailable
    | AlreadyBooked
    | Refused
    | CustomerWriteFailed(booking: Booking)

  /** The HTTP status each outcome is answered with. */
  function HttpStatus(o: Outcome): int {
    match o
    case Created(_) => 200
    case SlotUnavailable => 400
    case AlreadyBooked => 400
    case Refused => 500
    case CustomerWriteFailed(_) => 500
  }

  /** `(time || '').slice(0, 5)` */
  function Hhmm(time: string): (r: string)
    ensures |r| == if |time| < 5 then |time| else 5
    ensures r <= time
  {
    if |time| <= 5 then time else time[..5]
  }

  /** The admin has switched off the range holding `time` in the record
      used for `date`: the value is `false`, not merely missing. */
  predicate SlotBlocked(records: map<DateKey, SlotMap>, date: DateKey, time: string) {
    var slot := ContainingSlot(Hhmm(time));
    var rec := PolicyFor(records, date);
    slot.Some? && rec.Some? && slot.value in rec.value && !rec.value[slot.value]
  }

  /** Some stored booking is confirmed at exactly this date and time. */
  predicate ConfirmedAt(bs: seq<Booking>, date: string, time: string) {
    exists j :: 0 <= j < |bs| && bs[j].date == date && bs[j].time == time && bs[j].status == Confirmed
  }

  /** No two confirmed bookings share a date and a time. */
  predicate UniqueConfirmed(bs: seq<Booking>) {
    forall j, k :: 0 <= j < k < |bs| && bs[j].status == Confirmed && bs[k].status == Confirmed ==>
      bs[j].date != bs[k].date || bs[j].time != bs[k].time
  }

  /** Appending a booking that is not confirmed, or is confirmed at a free
      date and time, keeps confirmed bookings unique. */
  lemma AppendKeepsUnique(bs: seq<Booking>, b: Booking)
    requires UniqueConfirmed(bs)
    requires b.status == Confirmed ==> !ConfirmedAt(bs, b.date, b.time)
    ensures UniqueConfirmed(bs + [b])
  {
    var bs' := bs + [b];
    forall j, k | 0 <= j < k < |bs'| && bs'[j].status == Confirmed && bs'[k].status == Confirmed
      ensures bs'[j].date != bs'[k].date || bs'[j].time != bs'[k].time
    {
      if k == |bs| {
        assert bs'[j] == bs[j];
      }
    }
  }

  /** A date and time are blocked only through a stored `false`: with no
      record at all, or with the range missing from the record used,
      nothing is blocked. */
  lemma NoRecordNoBlock(records: map<DateKey, SlotMap>, date: DateKey, time: string)
    requires PolicyFor(records, date).None? ||
             (ContainingSlot(Hhmm(time)).Some? && ContainingSlot(Hhmm(time)).value !in PolicyFor(records, date).value)
    ensures !SlotBlocked(records, date, time)
  {
  }

  /** A date's own record decides alone: the global record's `false` does
      not block a range the date's record leaves available. */
  lemma DateRecordOverridesGlobal(records: map<DateKey, SlotMap>, date: string, time: string, slot: string)
    requires Some(date) in records && ContainingSlot(Hhmm(time)) == Some(slot)
    requires slot in records[Some(date)] && records[Some(date)][slot]
    ensures !SlotBlocked(records, Some(date), time)
  {
  }

  /** A time whose hour was written with one digit from 2 to 9 (which
      normalization does not pad) falls in no range, so no policy blocks
      it. */
  lemma UnpaddedTimesNeverBlocked(records: map<DateKey, SlotMap>, date: DateKey, time: string, d: char)
    requires IsUnpaddedHour(Hhmm(time), d) && '2' <= d <= '9'
    ensures !SlotBlocked(records, date, time)
  {
    UnpaddedLaterHourNoSlot(Hhmm(time), d);
  }

  /** `9:30` is stored as `9:30:00` and escapes every slot policy. */
  lemma NineThirtyNeverBlocked(records: map<DateKey, SlotMap>, date: DateKey)
    ensures !SlotBlocked(records, date, NormalizeTime(Some("9:30")))
  {
    NormalizeTimeDoesNotPad();
    assert Hhmm("9:30:00") == "9:30:";
    UnpaddedTimesNeverBlocked(records, date, "9:30:00", '9');
  }

  /** An unpadded hour 0 is checked against the 09:30-10:30 range. */
  lemma HourZeroCheckedAgainstMorningSlot(records: map<DateKey, SlotMap>, date: DateKey, time: string)
    requires IsUnpaddedHour(Hhmm(time), '0')
    ensures SlotBlocked(records, date, time) <==>
              PolicyFor(records, date).Some? && "09:30-10:30" in PolicyFor(records, date).value &&
              !PolicyFor(records, date).value["09:30-10:30"]
  {
    UnpaddedHourZeroSlot(Hhmm(time));
  }

  /** Only a confirmed booking at the very same time conflicts: a pending
      or cancelled one does not, nor a confirmed one at another time of the
      same range. */
  lemma ConflictNeedsExactConfirmed(bs: seq<Booking>, date: string, time: string)
    requires forall j :: 0 <= j < |bs| && bs[j].date == date && bs[j].status == Confirmed ==> bs[j].time != time
    ensures !ConfirmedAt(bs, date, time)
  {
  }

  /** Bookings at 19:30 and at 19:45 share the 19:30-20:30 range, yet a
      confirmed one at 19:30 does not stop one at 19:45. */
  lemma SameRangeOtherTimeAdmitted(b: Booking, t1: string, t2: string)
    requires t1 == "19:30:00" && t2 == "19:45:00"
    requires b.time == t1 && b.status == Confirmed
    ensures ContainingSlot(Hhmm(t1)) == ContainingSlot(Hhmm(t2))
    ensures !ConfirmedAt([b], b.date, t2)
  {
    assert Hhmm(t1) == "19:30" && Hhmm(t2) == "19:45";
    SlotExampleEvening(Hhmm(t1));
    SlotExampleEvening(Hhmm(t2));
  }

  /** The bookings and customers collections of server-mongodb.js. */
  class Reservations {
    var bookings: seq<Booking>
    var customers: seq<Customer>

    constructor ()
      ensures bookings == [] && customers == []
    {
      bookings := [];
      customers := [];
    }

    /** `Booking.findOne({ date, time, status: 'confirmed' })`, as a scan. */
    method FindConfirmed(date: string, time: string) returns (found: bool)
      ensures found == ConfirmedAt(bookings, date, time)
    {
      found := false;
      var j := 0;
      while j < |bookings|
        invariant 0 <= j <= |bookings|
        invariant !found
        invariant forall k :: 0 <= k < j ==> !(bookings[k].date == date && bookings[k].time == time && bookings[k].status == Confirmed)
      {
        if bookings[j].date == date && bookings[j].time == time && bookings[j].status == Confirmed {
          found := true;
          return;
        }
        j := j + 1;
      }
    }

    /** The slot check: the range holding the first five characters of
        the time, looked up in the date's record or the global one. */
    static method PolicyRefuses(records: map<DateKey, SlotMap>, date: DateKey, time: string) returns (blocked: bool)
      ensures blocked == SlotBlocked(records, date, time)
    {
      var containing := FindContainingSlot(Hhmm(time));
      var ts := PolicyFor(records, date);
      blocked := ts.Some? && containing.Some? && containing.value in ts.value && ts.value[containing.value] == false;
    }

    /** `Booking.create`: the booking is appended. A booking that is not
        confirmed, or is confirmed at a free date and time, keeps confirmed
        bookings unique. */
    method Store(b: Booking)
      modifies this
      ensures bookings == old(bookings) + [b] && customers == old(customers)
      ensures UniqueConfirmed(old(bookings)) && (b.status == Confirmed ==> !ConfirmedAt(old(bookings), b.date, b.time)) ==>
                UniqueConfirmed(bookings)
    {
      if UniqueConfirmed(bookings) && (b.status == Confirmed ==> !ConfirmedAt(bookings, b.date, b.time)) {
        AppendKeepsUnique(bookings, b);
      }
      bookings := bookings + [b];
    }

    /** The customer upsert after the booking is stored: the existing
        document's fields are reassigned one by one, or a customer is
        created. */
    method RecordCustomer(name: string, email: string, phone: Option<string>, date: string)
      modifies this
      ensures customers == Upserted(old(customers), name, email, phone, date)
      ensures bookings == old(bookings)
    {
      var found := FindByEmail(customers, email);
      if found.Some? {
        var existing := customers[found.value];
        existing := existing.(visits := Some(NextVisits(existing.visits)));
        existing := existing.(lastVisit := Some(date));
        existing := existing.(name := name);
        existing := existing.(phone := if phone.Some? then phone else existing.phone);
        customers := customers[found.value := existing];
      } else {
        customers := customers + [Customer(name, email, phone, Some(1), Some(date))];
      }
    }

    /** The two checks before the booking is built: the slot policy
        (skipped when its lookup throws) and then an exact confirmed
        conflict (skipped when its lookup throws or there is no date). */
    method Screen(req: BookingRequest, slots: TimeSlotStore, faults: Faults, time: string)
      returns (refusal: Option<Outcome>)
      ensures var blocked := !faults.slotLookupFails && SlotBlocked(slots.records, req.date, time);
              var taken := !faults.conflictLookupFails && req.date.Some? && ConfirmedAt(bookings, req.date.value, time);
              refusal == if blocked then Some(SlotUnavailable) else if taken then Some(AlreadyBooked) else None
    {
      var blocked := false;
      if !faults.slotLookupFails {
        blocked := PolicyRefuses(slots.records, req.date, time);
      }
      if blocked {
        return Some(SlotUnavailable);
      }
      if !faults.conflictLookupFails && req.date.Some? {
        var existing := FindConfirmed(req.date.value, time);
        if existing {
          return Some(AlreadyBooked);
        }
      }
      return None;
    }

    /** `Booking.create` of the built record, then the customer step. */
    method Admit(req: BookingRequest, time: string, customerWriteFails: bool) returns (outcome: Outcome)
      modifies this
      ensures var cast := Cast(FieldsMongo(req, time));
              && (outcome.Refused? <==> cast.None?)
              && (outcome.CustomerWriteFailed? <==> cast.Some? && customerWriteFails)
              && (outcome.Created? <==> cast.Some? && !customerWriteFails)
              && (outcome.Created? || outcome.CustomerWriteFailed? ==>
                    outcome.booking == cast.value && bookings == old(bookings) + [cast.value])
              && (outcome.Created? ==>
                    customers == Upserted(old(customers), NameMongo(req), Email(req), Phone(req), cast.value.date))
              && (outcome.Refused? ==> bookings == old(bookings))
              && (!outcome.Created? ==> customers == old(customers))
      ensures UniqueConfirmed(old(bookings)) && !(req.date.Some? && ConfirmedAt(old(bookings), req.date.value, time)) ==>
                UniqueConfirmed(bookings)
    {
      var b := Cast(FieldsMongo(req, time));
      if b.None? {
        return Refused;
      }
      CastSpec(FieldsMongo(req, time));
      Store(b.value);
      if customerWriteFails {
        return CustomerWriteFailed(b.value);
      }
      RecordCustomer(NameMongo(req), Email(req), Phone(req), b.value.date);
      outcome := Created(b.value);
    }

    /** `POST /api/bookings`. */
    method CreateBooking(req: BookingRequest, slots: TimeSlotStore, faults: Faults) returns (outcome: Outcome)
      modifies this
      ensures var time := NormalizeTime(req.time);
              var blocked := !faults.slotLookupFails && SlotBlocked(slots.records, req.date, time);
              var taken := !faults.conflictLookupFails && req.date.Some? && ConfirmedAt(old(bookings), req.date.value, time);
              var cast := Cast(FieldsMongo(req, time));
              && (outcome.SlotUnavailable? <==> blocked)
              && (outcome.AlreadyBooked? <==> !blocked && taken)
              && (outcome.Refused? <==> !blocked && !taken && cast.None?)
              && (outcome.CustomerWriteFailed? <==> !blocked && !taken && cast.Some? && faults.customerWriteFails)
              && (outcome.Created? || outcome.CustomerWriteFailed? ==>
                    outcome.booking == cast.value && bookings == old(bookings) + [cast.value])
              && (outcome.Created? ==>
                    customers == Upserted(old(customers), NameMongo(req), Email(req), Phone(req), cast.value.date))
      ensures outcome.SlotUnavailable? || outcome.AlreadyBooked? || outcome.Refused? ==>
                bookings == old(bookings) && customers == old(customers)
      ensures outcome.CustomerWriteFailed? ==> customers == old(customers)
      ensures !faults.conflictLookupFails && UniqueConfirmed(old(bookings)) ==> UniqueConfirmed(bookings)
    {
      var time := NormalizeTime(req.time);
      var refusal := Screen(req, slots, faults, time);
      if refusal.Some? {
        return refusal.value;
      }
      outcome := Admit(req, time, faults.customerWriteFails);
    }
  }
}
