/** The `Booking` schema: the stored record, the status enumeration, and
    what Mongoose does to the fields handed to `Booking.create` or
    `new Booking(...)`: trim and lower-case the string fields, fill the
    defaults, and refuse a record that breaks a constraint. */
module BookingSchema {
  import opened JsText
  import opened JsValues

  datatype Status = Pending | Confirmed | Cancelled | Completed

  function StatusName(s: Status): string {
    match s
    case Pending => "pending"
    case Confirmed => "confirmed"
    case Cancelled => "cancelled"
    case Completed => "completed"
  }

  /** The `enum` check: one of the four names, or nothing. */
  function ParseStatus(name: string): (r: Option<Status>)
    ensures r.Some? ==> StatusName(r.value) == name
    ensures r.None? ==> forall s: Status :: StatusName(s) != name
  {
    if name == "pending" then Some(Pending)
    else if name == "confirmed" then Some(Confirmed)
    else if name == "cancelled" then Some(Cancelled)
    else if name == "completed" then Some(Completed)
    else None
  }

  /** Every status survives a trip through its name. */
  lemma ParseStatusName(s: Status)
    ensures ParseStatus(StatusName(s)) == Some(s)
  {
  }

  /** A stored booking. `date` is the booking day as a `YYYY-MM-DD` key;
      `time` is the normalized `H:MM:SS` string. */
  datatype Booking = Booking(
    customerName: string,
    customerEmail: string,
    customerPhone: Option<string>,
    date: string,
    time: string,
    guests: int,
    tableNumber: int,
    status: Status,
    specialRequests: string)

  /** The fields handed to the model; `None` is a field left out or
      `null`. */
  datatype BookingFields = BookingFields(
    customerName: Option<string>,
    customerEmail: Option<string>,
    customerPhone: Option<string>,
    date: Option<string>,
    time: Option<string>,
    guests: Option<int>,
    tableNumber: Option<int>,
    status: Option<string>,
    specialRequests: Option<string>)

  /** What every stored booking satisfies: the required strings are
      present and non-empty, the names are trimmed, the e-mail is trimmed
      and lower case, and 1 <= guests <= 20. */
  predicate ValidBooking(b: Booking) {
    && b.customerName != [] && IsTrimmed(b.customerName)
    && b.customerEmail != [] && IsTrimmed(b.customerEmail) && IsLowerAscii(b.customerEmail)
    && (b.customerPhone.Some? ==> IsTrimmed(b.customerPhone.value))
    && b.time != []
    && 1 <= b.guests <= 20
  }

  /** `trim: true, lowercase: true` on a string. */
  function LowerTrim(s: string): (r: string)
    ensures IsTrimmed(r) && IsLowerAscii(r)
    ensures r == [] <==> Trim(s) == []
  {
    var t := Trim(s);
    TrimIsTrimmed(s);
    LowerKeepsTrimmed(t);
    ToLowerAscii(t)
  }

  /** A required string field: present and non-empty. */
  predicate Present(s: Option<string>) {
    s.Some? && s.value != []
  }

  /** `new Booking(fields)` followed by validation: `None` when Mongoose
      refuses the record, which the handlers turn into a 500. */
  function Cast(f: BookingFields): (r: Option<Booking>)
    ensures r.Some? ==> ValidBooking(r.value)
  {
    if f.customerName.None? || f.customerEmail.None? || f.date.None? || f.time.None?
       || f.guests.None? || f.tableNumber.None? then None
    else
      var name := Trim(f.customerName.value);
      var email := LowerTrim(f.customerEmail.value);
      var phone := if f.customerPhone.Some? then Some(Trim(f.customerPhone.value)) else None;
      var status := if f.status.None? then Some(Pending) else ParseStatus(f.status.value);
      if name == [] || email == [] || f.time.value == [] || status.None? then None
      else if !(1 <= f.guests.value <= 20) then None
      else
        Some(Booking(
          name, email, phone, f.date.value, f.time.value, f.guests.value,
          f.tableNumber.value, status.value,
          if f.specialRequests.Some? then f.specialRequests.value else ""))
  }

  /** Validation succeeds exactly when the required fields are present
      and within their bounds, and the stored values are the trimmed,
      lower-cased and defaulted fields. */
  lemma CastSpec(f: BookingFields)
    ensures var r := Cast(f);
            r.Some? <==>
              && f.customerName.Some? && Trim(f.customerName.value) != []
              && f.customerEmail.Some? && Trim(f.customerEmail.value) != []
              && f.date.Some?
              && Present(f.time)
              && f.guests.Some? && 1 <= f.guests.value <= 20
              && f.tableNumber.Some?
              && (f.status.None? || ParseStatus(f.status.value).Some?)
    ensures var r := Cast(f);
            r.Some? ==>
              && r.value.customerName == Trim(f.customerName.value)
              && r.value.customerEmail == ToLowerAscii(Trim(f.customerEmail.value))
              && r.value.date == f.date.value && r.value.time == f.time.value
              && r.value.guests == f.guests.value && r.value.tableNumber == f.tableNumber.value
              && r.value.status == (if f.status.None? then Pending else ParseStatus(f.status.value).value)
              && r.value.specialRequests == (if f.specialRequests.Some? then f.specialRequests.value else "")
  {
  }

  /** For a record with every field the handlers always fill, the cast
      succeeds exactly when the names are not blank, the date is valid,
      the time is not empty, the party is within 1..20 and the status is
      in the enum. */
  lemma CastAccepts(f: BookingFields)
    requires f.customerName.Some? && f.customerEmail.Some? && f.time.Some?
    requires f.guests.Some? && f.tableNumber.Some? && f.status.Some?
    ensures Cast(f).Some? <==>
              && Trim(f.customerName.value) != [] && Trim(f.customerEmail.value) != []
              && f.date.Some? && f.time.value != [] && 1 <= f.guests.value <= 20
              && ParseStatus(f.status.value).Some?
  {
    CastSpec(f);
  }

  /** The fields of a stored booking. */
  function FieldsOf(b: Booking): BookingFields {
    BookingFields(Some(b.customerName), Some(b.customerEmail), b.customerPhone,
      Some(b.date), Some(b.time), Some(b.guests), Some(b.tableNumber),
      Some(StatusName(b.status)), Some(b.specialRequests))
  }

  /** Casting is idempotent: a valid booking's own fields cast back to the
      same booking. */
  lemma CastOfValid(b: Booking)
    requires ValidBooking(b)
    ensures Cast(FieldsOf(b)) == Some(b)
  {
    TrimmedTrimIsIdentity(b.customerName);
    TrimmedTrimIsIdentity(b.customerEmail);
    LowerOfLower(b.customerEmail);
    if b.customerPhone.Some? {
      TrimmedTrimIsIdentity(b.customerPhone.value);
    }
    ParseStatusName(b.status);
  }

  lemma LowerOfLower(s: string)
    requires IsLowerAscii(s)
    ensures ToLowerAscii(s) == s
  {
  }
}
