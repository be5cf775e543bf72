/** Per-date availability of the booking ranges: the `TimeSlotSettings`
    record with its seeding hook, and the store behind the admin's
    availability GET and PUT endpoints. A record's key is its date, or
    `None` for the global record (`date: null`). */
module TimeSlotSettings {
  import opened JsText
  import opened JsValues
  import Slots

  /** `slotSettings`: slot label to availability (`true` = available). */
  type SlotMap = map<string, bool>

  /** A record's `date`; `None` is the global record. */
  type DateKey = Option<string>

  /** `(req.query.date || '').trim() || null`: a blank or whitespace date
      names the global record. */
  function DateKeyOf(query: Option<string>): (k: DateKey)
    ensures k.Some? ==> k.value != [] && IsTrimmed(k.value)
    ensures k.None? <==> query.None? || Trim(query.value) == []
    ensures query.Some? && query.value != [] && IsTrimmed(query.value) ==> k == query
  {
    var s := Trim(OrElse(query, ""));
    if s == [] then None else Some(s)
  }

  /** The set of canonical labels. */
  function LabelSet(): set<string> {
    set s | s in Slots.CanonicalLabels
  }

  /** Every label of `slots` available. */
  function AllAvailable(slots: seq<string>): (m: SlotMap)
    ensures m.Keys == set s | s in slots
    ensures forall s :: s in m ==> m[s]
  {
    map s | s in slots :: true
  }

  lemma AllAvailableSnoc(slots: seq<string>, slot: string)
    ensures AllAvailable(slots + [slot]) == AllAvailable(slots)[slot := true]
  {
    assert (set s | s in slots + [slot]) == (set s | s in slots) + {slot};
  }

  /** The map the seeding hook writes: every canonical label available. */
  function DefaultSlots(): (m: SlotMap)
    ensures m.Keys == LabelSet()
    ensures forall s :: s in m ==> m[s]
  {
    AllAvailable(Slots.CanonicalLabels)
  }

  /** The elements of a sequence without repetitions are as many as its
      length. */
  lemma {:induction false} DistinctCardinality(xs: seq<string>)
    requires forall j, k :: 0 <= j < k < |xs| ==> xs[j] != xs[k]
    ensures |set x | x in xs| == |xs|
  {
    if xs != [] {
      var init := xs[..|xs| - 1];
      DistinctCardinality(init);
      assert (set x | x in xs) == (set x | x in init) + {xs[|xs| - 1]};
      assert xs[|xs| - 1] !in (set x | x in init);
    }
  }

  /** The seeded map holds exactly the 13 canonical labels. */
  lemma DefaultSlotsSize()
    ensures |DefaultSlots()| == 13
  {
    forall j, k | 0 <= j < k < 13
      ensures Slots.CanonicalLabels[j] != Slots.CanonicalLabels[k]
    {
      if Slots.CanonicalLabels[j] == Slots.CanonicalLabels[k] {
        Slots.LabelsDistinct(j, k);
      }
    }
    DistinctCardinality(Slots.CanonicalLabels);
    assert DefaultSlots().Keys == set x | x in Slots.CanonicalLabels;
  }

  /** The map after the `pre('save')` hook: a new record with an empty map
      gets the defaults; any other record keeps its own entries. */
  function Seeded(isNew: bool, m: SlotMap): (r: SlotMap)
    ensures isNew && |m| == 0 ==> r.Keys == LabelSet() && forall s :: s in r ==> r[s]
    ensures !isNew || |m| != 0 ==> r == m
  {
    if isNew && |m| == 0 then DefaultSlots() else m
  }

  /** A record that is not new is never reseeded, even when its map is
      empty; a non-empty map is never merged with the defaults. */
  lemma {:induction false} SeedOnlyFillsNewEmptyRecords(isNew: bool, m: SlotMap)
    ensures Seeded(isNew, m) != m <==> isNew && |m| == 0
  {
    if isNew && |m| == 0 {
      DefaultSlotsSize();
    }
  }

  /** A `TimeSlotSettings` document. */
  class SlotSettingsRecord {
    var date: DateKey
    var slotSettings: SlotMap
    var isNew: bool

    /** `new TimeSlotSettings({ date })`: the map defaults to empty. */
    constructor (date: DateKey)
      ensures this.date == date && slotSettings == map[] && isNew
    {
      this.date := date;
      slotSettings := map[];
      isNew := true;
    }

    /** The `pre('save')` hook: on a new record with an empty map, sets
        each canonical label to `true`, one `set` at a time. */
    method PreSave()
      modifies this
      ensures slotSettings == Seeded(old(isNew), old(slotSettings))
      ensures date == old(date) && isNew == old(isNew)
    {
      if isNew && |slotSettings| == 0 {
        var defaultSlots := Slots.CanonicalLabels;
        for i := 0 to |defaultSlots|
          invariant slotSettings == AllAvailable(defaultSlots[..i])
          invariant date == old(date) && isNew == old(isNew)
        {
          AllAvailableSnoc(defaultSlots[..i], defaultSlots[i]);
          assert defaultSlots[..i + 1] == defaultSlots[..i] + [defaultSlots[i]];
          slotSettings := slotSettings[defaultSlots[i] := true];
        }
        assert defaultSlots[..|defaultSlots|] == defaultSlots;
      }
    }

    /** `save()`: runs the hook, then the record is no longer new. */
    method Save()
      modifies this
      ensures slotSettings == Seeded(old(isNew), old(slotSettings))
      ensures date == old(date) && !isNew
    {
      PreSave();
      isNew := false;
    }
  }

  /** The record a booking or a GET consults for `date`: the date's own
      record when there is one, otherwise the global record. */
  function PolicyFor(records: map<DateKey, SlotMap>, date: DateKey): (r: Option<SlotMap>)
    ensures r.Some? ==> r.value in records.Values
    ensures r.None? <==> (date !in records || date.None?) && None !in records
    ensures date.Some? && date in records ==> r == Some(records[date])
    ensures (date.None? || date !in records) && None in records ==> r == Some(records[None])
  {
    if date.Some? && date in records then Some(records[date])
    else if None in records then Some(records[None])
    else None
  }

  /** A date's own record shadows the global one. */
  lemma DateRecordShadowsGlobal(records: map<DateKey, SlotMap>, date: string)
    requires Some(date) in records
    ensures PolicyFor(records, Some(date)) == Some(records[Some(date)])
  {
  }

  /** A date without a record of its own falls back to the global
      record. */
  lemma MissingDateFallsBack(records: map<DateKey, SlotMap>, date: DateKey)
    requires date !in records
    ensures PolicyFor(records, date) == PolicyFor(records, None)
    ensures None in records ==> PolicyFor(records, date) == Some(records[None])
    ensures None !in records ==> PolicyFor(records, date).None?
  {
  }

  /** `Object.entries(body).forEach(([k, v]) => map.set(k, !!v))`: each key
      maps to the truthiness of its last value. */
  function Coerced(entries: seq<(string, Json)>): (m: SlotMap)
    ensures m.Keys == set e | e in entries :: e.0
  {
    if entries == [] then map[]
    else
      var last := entries[|entries| - 1];
      Coerced(entries[..|entries| - 1])[last.0 := Truthy(last.1)]
  }

  /** The value under a key is the truthiness of that key's last entry. */
  lemma {:induction false} CoercedLastWins(entries: seq<(string, Json)>, i: nat)
    requires i < |entries|
    requires forall j :: i < j < |entries| ==> entries[j].0 != entries[i].0
    ensures Coerced(entries)[entries[i].0] == Truthy(entries[i].1)
  {
    if i < |entries| - 1 {
      CoercedLastWins(entries[..|entries| - 1], i);
    }
  }

  /** The loop that builds the map, `map.set` by `map.set`. */
  method CoerceEntries(entries: seq<(string, Json)>) returns (m: SlotMap)
    ensures m == Coerced(entries)
  {
    m := map[];
    for i := 0 to |entries|
      invariant m == Coerced(entries[..i])
    {
      assert entries[..i + 1][..i] == entries[..i];
      m := m[entries[i].0 := Truthy(entries[i].1)];
    }
    assert entries[..|entries|] == entries;
  }

  /** The collection of `TimeSlotSettings` records, one per date key. */
  class TimeSlotStore {
    var records: map<DateKey, SlotMap>

    constructor ()
      ensures records == map[]
    {
      records := map[];
    }

    /** `GET /api/time-slots/availability` for the date key the handler
        derives with `DateKeyOf`: the date's record, else the global one,
        else a new global record saved (and so seeded) now. */
    method GetAvailability(date: DateKey) returns (availability: SlotMap)
      modifies this
      ensures PolicyFor(old(records), date).Some? ==>
                availability == PolicyFor(old(records), date).value && records == old(records)
      ensures PolicyFor(old(records), date).None? ==>
                availability == DefaultSlots() && records == old(records)[None := DefaultSlots()]
    {
      var doc: Option<SlotMap> := None;
      if date.Some? && date in records {
        doc := Some(records[date]);
      }
      if doc.None? && None in records {
        doc := Some(records[None]);
      }
      assert doc == PolicyFor(records, date);
      if doc.None? {
        availability := CreateGlobal();
      } else {
        availability := doc.value;
      }
    }

    /** `new TimeSlotSettings({ date: null })` saved: the hook seeds it. */
    method CreateGlobal() returns (seeded: SlotMap)
      modifies this
      ensures seeded == DefaultSlots() && records == old(records)[None := seeded]
    {
      var created := new SlotSettingsRecord(None);
      created.Save();
      seeded := created.slotSettings;
      records := records[None := seeded];
    }

    /** `PUT /api/time-slots/availability` for the date key the handler
        derives with `DateKeyOf`: `findOneAndUpdate` with upsert replaces
        the whole map of that key (a blank date is the global record); the
        seeding hook does not run, so the key holds exactly the written
        map. */
    method PutAvailability(date: DateKey, body: Option<seq<(string, Json)>>)
      modifies this
      ensures records == old(records)[date := Coerced(if body.Some? then body.value else [])]
    {
      var m := CoerceEntries(if body.Some? then body.value else []);
      records := records[date := m];
    }
  }

  /** After a PUT for a date, a lookup for that date sees exactly the
      written map, and the other keys keep their records. */
  lemma PutThenLookup(records: map<DateKey, SlotMap>, date: DateKey, m: SlotMap, other: DateKey)
    requires other != date
    ensures PolicyFor(records[date := m], date) == Some(m)
    ensures other in records ==> records[date := m][other] == records[other]
  {
  }
}
