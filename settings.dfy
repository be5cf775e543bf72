/** The restaurant settings of server-mongodb.js: one `Settings` document,
    created with the schema defaults on first read, and patched field by
    field by `PUT /api/settings`, where a field the body leaves out (or
    sends as `null`) keeps its value. */
module RestaurantSettings {
  import opened JsValues

  datatype OperatingHours = OperatingHours(weekdays: string, weekends: string, sunday: string)

  datatype Settings = Settings(
    restaurantName: string,
    address: string,
    phone: string,
    maxPartySize: int,
    bookingAdvanceDays: int,
    tableCount: int,
    operatingHours: OperatingHours)

  /** The schema defaults: what `Settings.create({})` and `new Settings()`
      hold. */
  function Defaults(): Settings {
    Settings("Laurent Restaurant", "123 Main Street, City, State 12345", "+1 (555) 123-4567", 12, 30, 20,
      OperatingHours("11:00 AM - 10:00 PM", "11:00 AM - 11:00 PM", "12:00 PM - 9:00 PM"))
  }

  /** A request body; `None` is a field left out or `null`. */
  datatype Patch = Patch(
    name: Option<string>,
    address: Option<string>,
    phone: Option<string>,
    maxPartySize: Option<int>,
    bookingAdvanceDays: Option<int>,
    tableCount: Option<int>,
    operatingHours: Option<OperatingHours>)

  const EmptyPatch := Patch(None, None, None, None, None, None, None)

  /** `a ?? b` */
  function Or<T>(a: Option<T>, b: T): T {
    if a.Some? then a.value else b
  }

  /** Every field replaced by the body's value when there is one. */
  function Merge(s: Settings, p: Patch): Settings {
    Settings(Or(p.name, s.restaurantName), Or(p.address, s.address), Or(p.phone, s.phone),
      Or(p.maxPartySize, s.maxPartySize), Or(p.bookingAdvanceDays, s.bookingAdvanceDays),
      Or(p.tableCount, s.tableCount), Or(p.operatingHours, s.operatingHours))
  }

  /** The body fields of `p` overridden by those of `q`. */
  function Then(p: Patch, q: Patch): Patch {
    Patch(if q.name.Some? then q.name else p.name,
      if q.address.Some? then q.address else p.address,
      if q.phone.Some? then q.phone else p.phone,
      if q.maxPartySize.Some? then q.maxPartySize else p.maxPartySize,
      if q.bookingAdvanceDays.Some? then q.bookingAdvanceDays else p.bookingAdvanceDays,
      if q.tableCount.Some? then q.tableCount else p.tableCount,
      if q.operatingHours.Some? then q.operatingHours else p.operatingHours)
  }

  /** An empty body changes nothing. */
  lemma EmptyPatchKeepsSettings(s: Settings)
    ensures Merge(s, EmptyPatch) == s
  {
  }

  /** Sending the same body twice is sending it once. */
  lemma MergeIdempotent(s: Settings, p: Patch)
    ensures Merge(Merge(s, p), p) == Merge(s, p)
  {
  }

  /** Two PUTs in a row are one PUT of the combined body, the later
      fields winning. */
  lemma MergeCompose(s: Settings, p: Patch, q: Patch)
    ensures Merge(Merge(s, p), q) == Merge(s, Then(p, q))
  {
  }

  /** A field the body gives is stored as given, whether or not it is
      falsy (`??` keeps `0` and `''`); the fields it leaves out keep their
      values. */
  lemma MergeTakesGivenFields(s: Settings, p: Patch)
    ensures Merge(s, p).restaurantName == if p.name.Some? then p.name.value else s.restaurantName
    ensures Merge(s, p).address == if p.address.Some? then p.address.value else s.address
    ensures Merge(s, p).phone == if p.phone.Some? then p.phone.value else s.phone
    ensures Merge(s, p).maxPartySize == if p.maxPartySize.Some? then p.maxPartySize.value else s.maxPartySize
    ensures Merge(s, p).bookingAdvanceDays ==
              if p.bookingAdvanceDays.Some? then p.bookingAdvanceDays.value else s.bookingAdvanceDays
    ensures Merge(s, p).tableCount == if p.tableCount.Some? then p.tableCount.value else s.tableCount
    ensures Merge(s, p).operatingHours == if p.operatingHours.Some? then p.operatingHours.value else s.operatingHours
  {
  }

  /** The `settings` collection: at most one document. */
  class SettingsStore {
    var current: Option<Settings>

    constructor ()
      ensures current.None?
    {
      current := None;
    }

    /** `GET /api/settings`: the document, created with the defaults when
        there is none. */
    method Get() returns (s: Settings)
      modifies this
      ensures old(current).Some? ==> s == old(current).value && current == old(current)
      ensures old(current).None? ==> s == Defaults() && current == Some(Defaults())
    {
      if current.None? {
        current := Some(Defaults());
      }
      s := current.value;
    }

    /** `PUT /api/settings`: each field of the document (or of a new one
        with the defaults) is reassigned `body.x ?? s.x`, then saved; the
        reply echoes the body. */
    method Put(body: Patch) returns (echoed: Patch)
      modifies this
      ensures current == Some(Merge(if old(current).Some? then old(current).value else Defaults(), body))
      ensures echoed == body
    {
      var s := if current.Some? then current.value else Defaults();
      s := s.(restaurantName := Or(body.name, s.restaurantName));
      s := s.(address := Or(body.address, s.address));
      s := s.(phone := Or(body.phone, s.phone));
      s := s.(maxPartySize := Or(body.maxPartySize, s.maxPartySize));
      s := s.(bookingAdvanceDays := Or(body.bookingAdvanceDays, s.bookingAdvanceDays));
      s := s.(tableCount := Or(body.tableCount, s.tableCount));
      s := s.(operatingHours := Or(body.operatingHours, s.operatingHours));
      current := Some(s);
      echoed := body;
    }
  }

  /** A PUT on an empty collection followed by a GET reads the defaults
      patched by the body, field by field. */
  lemma PutOnEmptyStoresPatchedDefaults(p: Patch)
    ensures var m := Merge(Defaults(), p);
            && m.restaurantName == (if p.name.Some? then p.name.value else "Laurent Restaurant")
            && m.address == (if p.address.Some? then p.address.value else "123 Main Street, City, State 12345")
            && m.phone == (if p.phone.Some? then p.phone.value else "+1 (555) 123-4567")
            && m.maxPartySize == (if p.maxPartySize.Some? then p.maxPartySize.value else 12)
            && m.bookingAdvanceDays == (if p.bookingAdvanceDays.Some? then p.bookingAdvanceDays.value else 30)
            && m.tableCount == (if p.tableCount.Some? then p.tableCount.value else 20)
            && m.operatingHours == (if p.operatingHours.Some? then p.operatingHours.value
                                    else OperatingHours("11:00 AM - 10:00 PM", "11:00 AM - 11:00 PM", "12:00 PM - 9:00 PM"))
  {
  }
}
