/** Time-of-day handling: the two `normalizeTime` variants that turn a
    booking form's time into an `H:MM:SS` string, and the 24-hour to
    12-hour display conversion used by the analytics endpoints. */
module TimeFormat {
  import opened JsText
  import opened JsValues

  /** The time a booking gets when its time is missing or unreadable. */
  const DefaultTime: string := "19:30:00"

  /** `/^\d{1,2}:\d{2}$/` */
  predicate IsHm(s: string) {
    || (|s| == 4 && IsDigit(s[0]) && s[1] == ':' && IsDigit(s[2]) && IsDigit(s[3]))
    || (|s| == 5 && IsDigit(s[0]) && IsDigit(s[1]) && s[2] == ':' && IsDigit(s[3]) && IsDigit(s[4]))
  }

  /** `/^\d{1,2}:\d{2}:\d{2}$/` */
  predicate IsHms(s: string) {
    && |s| >= 3
    && IsHm(s[..|s| - 3])
    && s[|s| - 3] == ':' && IsDigit(s[|s| - 2]) && IsDigit(s[|s| - 1])
  }

  lemma HmsOfHm(s: string)
    requires IsHm(s)
    ensures IsHms(s + ":00")
  {
    assert (s + ":00")[..|s|] == s;
  }

  lemma HmsIsNotHm(s: string)
    requires IsHms(s)
    ensures !IsHm(s) && |s| >= 7 && IsDigit(s[|s| - 1]) && '-' !in s
  {
    var h := s[..|s| - 3];
    assert s == h + s[|s| - 3..];
    assert '-' !in h;
  }

  /** A trailing `AM`/`PM` in any letter case. */
  predicate EndsWithMeridiem(s: string) {
    && |s| >= 2
    && (s[|s| - 2] == 'A' || s[|s| - 2] == 'a' || s[|s| - 2] == 'P' || s[|s| - 2] == 'p')
    && (s[|s| - 1] == 'M' || s[|s| - 1] == 'm')
  }

  /** `s.replace(/\s?(AM|PM)$/i, '')`: the marker is dropped together with
      one whitespace character before it; the hour is not converted. */
  function StripMeridiem(s: string): (r: string)
    ensures EndsWithMeridiem(s) && |s| >= 3 && IsWhitespace(s[|s| - 3]) ==> r == s[..|s| - 3]
    ensures EndsWithMeridiem(s) && !(|s| >= 3 && IsWhitespace(s[|s| - 3])) ==> r == s[..|s| - 2]
    ensures !EndsWithMeridiem(s) ==> r == s
  {
    if EndsWithMeridiem(s) then
      if |s| >= 3 && IsWhitespace(s[|s| - 3]) then s[..|s| - 3] else s[..|s| - 2]
    else s
  }

  /** `normalizeTime` of server-mongodb.js: the start of a range `a-b`,
      without an AM/PM marker, with `:00` added to a bare `H:MM`; anything
      else that is not already `H:MM:SS` becomes the default. It does not
      zero-pad the hour. */
  function NormalizeTime(t: Option<string>): (r: string)
    ensures IsHms(r)
  {
    if t.None? || t.value == [] then DefaultTime
    else
      var s := Before(t.value, '-');
      var s' := StripMeridiem(s);
      var s'' := if IsHm(s') then s' + ":00" else s';
      if IsHms(s'') then s'' else DefaultTime
  }

  /** The part of `NormalizeTime` that does the work, once the input is
      known to be present. */
  lemma NormalizeTimeCases(t: string)
    requires t != []
    ensures var s := StripMeridiem(Before(t, '-'));
            && (IsHm(s) ==> NormalizeTime(Some(t)) == s + ":00")
            && (IsHms(s) ==> NormalizeTime(Some(t)) == s)
            && (!IsHm(s) && !IsHms(s) ==> NormalizeTime(Some(t)) == DefaultTime)
  {
    var s := StripMeridiem(Before(t, '-'));
    if IsHms(s) {
      HmsIsNotHm(s);
    }
  }

  /** Missing or empty input gives the default time. */
  lemma NormalizeTimeOfMissing(t: Option<string>)
    requires t.None? || t == Some("")
    ensures NormalizeTime(t) == DefaultTime
  {
  }

  /** An already normalized time is kept as it is: normalization is
      idempotent. */
  lemma {:induction false} NormalizeTimeIdempotent(t: Option<string>)
    ensures NormalizeTime(Some(NormalizeTime(t))) == NormalizeTime(t)
  {
    var r := NormalizeTime(t);
    HmsIsNotHm(r);
    BeforeOfNoSep(r, '-');
    assert StripMeridiem(r) == r;
    NormalizeTimeCases(r);
  }

  /** A range `a-b` normalizes as its start `a`. */
  lemma {:induction false} NormalizeTimeOfRange(a: string, b: string)
    requires '-' !in a
    ensures NormalizeTime(Some(a + "-" + b)) == NormalizeTime(Some(a))
  {
    BeforeOfJoin(a, '-', b);
    BeforeOfNoSep(a, '-');
    if a == [] {
      assert Before(a + "-" + b, '-') == [];
      assert StripMeridiem([]) == [];
      assert !IsHm([]) && !IsHms([]);
    } else {
      NormalizeTimeCases(a + "-" + b);
      NormalizeTimeCases(a);
    }
  }

  /** `H:MM` followed by ` PM` (or `AM`) keeps its hour: `1:30 PM`
      becomes `1:30:00`, not `13:30:00`. */
  lemma {:induction false} NormalizeTimeIgnoresMeridiem(s: string, marker: string)
    requires IsHm(s) && (marker == " PM" || marker == " AM" || marker == "pm" || marker == "am")
    ensures NormalizeTime(Some(s + marker)) == s + ":00"
  {
    var t := s + marker;
    BeforeOfNoSep(t, '-');
    assert StripMeridiem(t) == s by {
      assert EndsWithMeridiem(t);
      assert t[..|s|] == s;
      if marker == " PM" || marker == " AM" {
        assert IsWhitespace(t[|t| - 3]);
      } else {
        assert !IsWhitespace(t[|t| - 3]);
      }
    }
    NormalizeTimeCases(t);
  }

  /** `"9:30"` becomes `"9:30:00"`: the hour is not zero-padded. */
  lemma NormalizeTimeDoesNotPad()
    ensures NormalizeTime(Some("9:30")) == "9:30:00"
  {
    var t := "9:30";
    BeforeOfNoSep(t, '-');
    assert !EndsWithMeridiem(t);
    assert IsHm(t);
    NormalizeTimeCases(t);
    assert t + ":00" == "9:30:00";
  }

  /** What the server.js booking handler's time normalization yields for
      `raw`: a bare `H:MM` is zero-padded to `HH:MM` and completed with
      `:00`, an `H:MM:SS` is kept, anything else (empty input included)
      becomes the default. */
  ghost predicate LegacyTimeOf(raw: Option<string>, t: string) {
    var s := StripMeridiem(Before(if raw.Some? then raw.value else "", '-'));
    && IsHms(t)
    && (IsHm(s) ==> t == (if |s| == 4 then "0" + s else s) + ":00")
    && (IsHms(s) ==> t == s)
    && (!IsHm(s) && !IsHms(s) ==> t == DefaultTime)
  }

  /** The server.js time normalization, step by step as the handler
      reassigns `normalizedTime`. */
  method NormalizeTimeLegacy(raw: Option<string>) returns (t: string)
    ensures LegacyTimeOf(raw, t)
    ensures IsHms(t) && (IsHm(StripMeridiem(Before(if raw.Some? then raw.value else "", '-'))) ==> |t| == 8)
  {
    t := if raw.Some? then raw.value else "";
    if '-' in t {
      t := Before(t, '-');
    } else {
      BeforeOfNoSep(t, '-');
    }
    t := StripMeridiem(t);
    ghost var s := t;
    if IsHm(t) {
      t := if |t| == 4 then "0" + t else t;
    }
    if IsHm(t) {
      HmsOfHm(t);
      t := t + ":00";
    } else if !IsHms(t) {
      t := DefaultTime;
    }
    if IsHms(s) {
      HmsIsNotHm(s);
    }
  }

  /** `${h}` for the display hour of `to12h`: NaN prints as `NaN`. */
  function ShowHour(hour: Option<int>): string {
    match hour
    case None => "NaN"
    case Some(h) => IntToString(if h == 0 then 12 else if h > 12 then h - 12 else h)
  }

  /** `to12h(t)`: the hour before the first `:` read with `parseInt`, the
      minutes between the first and the second `:` (`undefined` when there
      is no `:`), and `PM` from hour 12 on. */
  function To12h(t: string): (r: string)
  {
    var hour := ParseInt(Before(t, ':'));
    ShowHour(hour) + ":" + MinutesField(t) + Meridiem(hour.Some? && hour.value >= 12)
  }

  /** `t.split(':')[1]`, printed. */
  function MinutesField(t: string): string {
    if ':' in t then Before(After(t, ':'), ':') else "undefined"
  }

  /** The marker `to12h` appends. */
  function Meridiem(pm: bool): string {
    if pm then " PM" else " AM"
  }

  /** The hour and minute fields of an `H:MM:SS` string, as `split(':')`
      sees them. */
  lemma {:induction false} ClockTimeFields(t: string)
    requires IsHms(t)
    ensures var hh := Before(t, ':');
            && AllDigits(hh) && 1 <= |hh| <= 2 && |t| >= |hh| + 3
            && MinutesField(t) == t[|hh| + 1..|hh| + 3]
  {
    var k := if IsDigit(t[1]) then 2 else 1;
    var hh := t[..k];
    var rest := t[k + 1..];
    assert t == hh + [':'] + rest;
    BeforeOfJoin(hh, ':', rest);
    assert After(t, ':') == rest;
    assert rest == rest[..2] + [':'] + rest[3..];
    BeforeOfJoin(rest[..2], ':', rest[3..]);
  }

  /** For a stored `H:MM:SS` time: the hour is read as its digits' value
      (shown on a 12-hour clock by `ShowHourOfNat`), the minutes are kept,
      and the marker is PM exactly from hour 12 on. */
  lemma {:induction false} To12hOfClockTime(t: string)
    requires IsHms(t)
    ensures var hh := Before(t, ':');
            var h := DigitsValue(hh);
            To12h(t) == ShowHour(Some(h)) + ":" + t[|hh| + 1..|hh| + 3] + Meridiem(h >= 12)
  {
    ClockTimeFields(t);
    ParseIntOfDigits(Before(t, ':'));
  }

  /** The 12-hour display of an hour read from a stored time: 0 is 12,
      1 to 12 are themselves, later hours are h-12. */
  lemma ShowHourOfNat(h: nat)
    ensures h == 0 ==> ShowHour(Some(h)) == "12"
    ensures 1 <= h <= 12 ==> ShowHour(Some(h)) == NatToString(h)
    ensures 13 <= h ==> ShowHour(Some(h)) == NatToString(h - 12)
  {
    assert NatToString(12) == "12" by {
      assert NatToString(1) == "1";
    }
  }
}
