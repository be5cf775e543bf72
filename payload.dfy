/** The booking form as the `POST /api/bookings` handlers receive it, and
    the derivation of the stored fields from it. The landing page and the
    detailed page send different field names (`customerName` or
    `firstName`/`lastName`, `email` or `customerEmail`, `guests` or
    `partysize`); both handlers accept either. */
module Payload {
  import opened JsText
  import opened JsValues
  import opened BookingSchema

  /** A request body. String fields are `None` when absent or `null`;
      numeric fields carry `Number(v)` of a present value. `date` is the
      booking day after date normalization, `None` when it is missing or
      not a valid date. */
  datatype BookingRequest = BookingRequest(
    date: Option<string>,
    time: Option<string>,
    customerName: Option<string>,
    firstName: Option<string>,
    lastName: Option<string>,
    customerEmail: Option<string>,
    email: Option<string>,
    customerPhone: Option<string>,
    phone: Option<string>,
    guests: Option<Num>,
    partysize: Option<Num>,
    tableNumber: Option<Num>,
    status: Option<string>,
    specialRequests: Option<string>)

  /** `Number(guests ?? partysize ?? 1) || 1`: the first present field
      decides, and a zero or NaN there gives 1. */
  function Guests(req: BookingRequest): (n: int)
    ensures n != 0
    ensures req.guests.Some? && req.guests.value.Num? && req.guests.value.n != 0 ==> n == req.guests.value.n
    ensures req.guests.None? && req.partysize.Some? && req.partysize.value.Num? && req.partysize.value.n != 0 ==>
              n == req.partysize.value.n
    ensures req.guests.None? && req.partysize.None? ==> n == 1
  {
    var v := if req.guests.Some? then req.guests.value
             else if req.partysize.Some? then req.partysize.value
             else Num(1);
    NumberOr(v, 1)
  }

  /** A `guests` field that is present is used even when it is zero or
      NaN: `partysize` is then ignored and the party is 1. */
  lemma GuestsIgnorePartySize(req: BookingRequest)
    requires req.guests.Some? && (req.guests.value.NaN? || req.guests.value.n == 0)
    ensures Guests(req) == 1
  {
  }

  /** `` `${firstName || ''} ${lastName || ''}` `` */
  function JoinedName(req: BookingRequest): string {
    OrElse(req.firstName, "") + " " + OrElse(req.lastName, "")
  }

  /** server-mongodb.js: `(customerName || joined.trim()) || 'Guest'`.
      A given `customerName` is taken as it is, untrimmed. */
  function NameMongo(req: BookingRequest): (r: string)
    ensures r != []
    ensures req.customerName.Some? && req.customerName.value != [] ==> r == req.customerName.value
    ensures (req.customerName.None? || req.customerName.value == []) ==>
              r == (if Trim(JoinedName(req)) != [] then Trim(JoinedName(req)) else "Guest")
  {
    OrElse(Some(OrElse(req.customerName, Trim(JoinedName(req)))), "Guest")
  }

  /** server.js: `(customerName || joined).trim() || 'Guest'`. */
  function NameLegacy(req: BookingRequest): (r: string)
    ensures r != [] && IsTrimmed(r)
    ensures req.customerName.Some? && Trim(req.customerName.value) != [] ==> r == Trim(req.customerName.value)
  {
    OrElse(Some(Trim(OrElse(req.customerName, JoinedName(req)))), "Guest")
  }

  /** server.js falls back to `Guest` for a blank given name, and to the
      trimmed first and last name when no name is given. */
  lemma NameLegacyFallback(req: BookingRequest)
    ensures req.customerName.Some? && req.customerName.value != [] && Trim(req.customerName.value) == [] ==>
              NameLegacy(req) == "Guest"
    ensures (req.customerName.None? || req.customerName.value == []) ==>
              NameLegacy(req) == (if Trim(JoinedName(req)) != [] then Trim(JoinedName(req)) else "Guest")
  {
  }

  /** `(customerEmail || email || '').trim() || 'guest@example.com'` */
  function Email(req: BookingRequest): (r: string)
    ensures r != [] && IsTrimmed(r)
    ensures req.customerEmail.Some? && req.customerEmail.value != [] ==>
              r == (if Trim(req.customerEmail.value) != [] then Trim(req.customerEmail.value) else "guest@example.com")
    ensures (req.customerEmail.None? || req.customerEmail.value == []) && req.email.Some? && req.email.value != [] ==>
              r == (if Trim(req.email.value) != [] then Trim(req.email.value) else "guest@example.com")
  {
    var e := Trim(OrElse(req.customerEmail, OrElse(req.email, "")));
    if e == [] then "guest@example.com" else e
  }

  /** With neither e-mail field given, the booking is made for
      `guest@example.com`. */
  lemma EmailFallback(req: BookingRequest)
    requires req.customerEmail.None? || req.customerEmail.value == []
    requires req.email.None? || req.email.value == []
    ensures Email(req) == "guest@example.com"
  {
    assert OrElse(req.customerEmail, OrElse(req.email, "")) == "";
    assert Trim("") == [];
  }

  /** `(customerPhone || phone || '').trim() || null` */
  function Phone(req: BookingRequest): (r: Option<string>)
    ensures r.Some? ==> r.value != [] && IsTrimmed(r.value)
    ensures r.None? <==> Trim(OrElse(req.customerPhone, OrElse(req.phone, ""))) == []
  {
    var p := Trim(OrElse(req.customerPhone, OrElse(req.phone, "")));
    if p == [] then None else Some(p)
  }

  /** `Number(tableNumber) || fallback`; an absent field is NaN. */
  function Table(req: BookingRequest, fallback: int): (n: int)
    ensures req.tableNumber.Some? && req.tableNumber.value.Num? && req.tableNumber.value.n != 0 ==>
              n == req.tableNumber.value.n
    ensures !(req.tableNumber.Some? && req.tableNumber.value.Num? && req.tableNumber.value.n != 0) ==> n == fallback
  {
    NumberOr(if req.tableNumber.Some? then req.tableNumber.value else NaN, fallback)
  }

  /** `status || 'pending'` */
  function StatusText(req: BookingRequest): (r: string)
    ensures r != []
  {
    OrElse(req.status, "pending")
  }

  /** `specialRequests || ''` */
  function Special(req: BookingRequest): string {
    OrElse(req.specialRequests, "")
  }

  /** The fields server-mongodb.js hands to `Booking.create`; an absent
      table number becomes 1. */
  function FieldsMongo(req: BookingRequest, time: string): BookingFields {
    BookingFields(Some(NameMongo(req)), Some(Email(req)), Phone(req), req.date, Some(time),
      Some(Guests(req)), Some(Table(req, 1)), Some(StatusText(req)), Some(Special(req)))
  }

  /** The fields server.js hands to `new Booking`; an absent table number
      becomes the drawn `randomTable`. */
  function FieldsLegacy(req: BookingRequest, time: string, randomTable: int): BookingFields {
    BookingFields(Some(NameLegacy(req)), Some(Email(req)), Phone(req), req.date, Some(time),
      Some(Guests(req)), Some(Table(req, randomTable)), Some(StatusText(req)), Some(Special(req)))
  }

  /** server.js's derived fields are refused only for a missing date, a
      party outside 1..20 or an unknown status. */
  lemma LegacyFieldsAccepted(req: BookingRequest, time: string, randomTable: int)
    requires time != []
    ensures Cast(FieldsLegacy(req, time, randomTable)).Some? <==>
              req.date.Some? && 1 <= Guests(req) <= 20 && ParseStatus(StatusText(req)).Some?
  {
    CastAccepts(FieldsLegacy(req, time, randomTable));
    TrimmedTrimIsIdentity(NameLegacy(req));
    TrimmedTrimIsIdentity(Email(req));
  }

  /** server-mongodb.js's derived fields are refused in the same cases,
      and also when a given `customerName` is all whitespace: the handler
      keeps it, and the schema trims it to nothing. */
  lemma MongoFieldsAccepted(req: BookingRequest, time: string)
    requires time != []
    ensures Cast(FieldsMongo(req, time)).Some? <==>
              && Trim(NameMongo(req)) != []
              && req.date.Some? && 1 <= Guests(req) <= 20 && ParseStatus(StatusText(req)).Some?
    ensures req.customerName.Some? && req.customerName.value != [] && Trim(req.customerName.value) == [] ==>
              Cast(FieldsMongo(req, time)).None?
  {
    CastAccepts(FieldsMongo(req, time));
    TrimmedTrimIsIdentity(Email(req));
  }

  /** A whitespace-only `customerName` sinks the server-mongodb.js booking
      but becomes `Guest` in server.js. */
  lemma BlankNameDiffers(req: BookingRequest)
    requires req.customerName.Some? && req.customerName.value != [] && Trim(req.customerName.value) == []
    ensures Trim(NameMongo(req)) == [] && NameLegacy(req) == "Guest"
  {
  }
}
