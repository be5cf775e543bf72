/** The fixed list of bookable time ranges and the search the booking
    handler uses to find the range a time falls in. Ranges are labelled
    `HH:MM-HH:MM`; a time belongs to a range when `start <= t < end` in
    JavaScript's string order. */
module Slots {
  import opened JsText
  import opened JsValues

  const Starts: seq<string> := [
    "07:30", "08:30", "09:30",
    "12:00", "13:00", "13:30",
    "15:30", "16:30",
    "17:30", "18:30",
    "19:30", "20:30", "21:30"
  ]

  const Ends: seq<string> := [
    "08:30", "09:30", "10:30",
    "13:00", "14:00", "14:30",
    "16:30", "17:30",
    "18:30", "19:30",
    "20:30", "21:30", "22:30"
  ]

  /** The 13 canonical slot labels, in list order. */
  const CanonicalLabels: seq<string> :=
    [ "07:30-08:30", "08:30-09:30", "09:30-10:30", "12:00-13:00", "13:00-14:00", "13:30-14:30", "15:30-16:30", "16:30-17:30", "17:30-18:30", "18:30-19:30", "19:30-20:30", "20:30-21:30", "21:30-22:30" ]

  /** `start <= t && t < end` for `[start, end] = slot.split('-')`; a slot
      without `-` has no end, and `t < undefined` is false. */
  predicate InSlot(t: string, slot: string) {
    && '-' in slot
    && !LexLess(t, Before(slot, '-'))
    && LexLess(t, Before(After(slot, '-'), '-'))
  }

  /** A `HH:MM` string. */
  predicate IsClock(s: string) {
    |s| == 5 && IsDigit(s[0]) && IsDigit(s[1]) && s[2] == ':' && IsDigit(s[3]) && IsDigit(s[4])
  }

  lemma BoundsAreClocks(i: nat)
    requires i < 13
    ensures IsClock(Starts[i]) && IsClock(Ends[i])
  {
  }

  /** `a < b` on two `HH:MM` strings, field by field. */
  predicate ClockLess(a: string, b: string) {
    && IsClock(a) && IsClock(b)
    && (|| a[0] < b[0]
        || (a[0] == b[0] && a[1] < b[1])
        || (a[0] == b[0] && a[1] == b[1] && a[3] < b[3])
        || (a[0] == b[0] && a[1] == b[1] && a[3] == b[3] && a[4] < b[4]))
  }

  /** On `HH:MM` strings, JavaScript's string order is the field-by-field
      order. */
  lemma ClockLexLess(a: string, b: string)
    requires IsClock(a) && IsClock(b)
    ensures LexLess(a, b) <==> ClockLess(a, b)
  {
    var a1, b1 := a[1..], b[1..];
    var a2, b2 := a1[1..], b1[1..];
    var a3, b3 := a2[1..], b2[1..];
    var a4, b4 := a3[1..], b3[1..];
    assert a2[0] == b2[0] == ':';
    assert LexLess(a4, b4) <==> a[4] < b[4];
    assert LexLess(a3, b3) <==> a[3] < b[3] || (a[3] == b[3] && LexLess(a4, b4));
    assert LexLess(a2, b2) <==> LexLess(a3, b3);
    assert LexLess(a1, b1) <==> a[1] < b[1] || (a[1] == b[1] && LexLess(a2, b2));
    assert LexLess(a, b) <==> a[0] < b[0] || (a[0] == b[0] && LexLess(a1, b1));
  }

  /** Splitting a canonical slot gives back its start and its end. */
  lemma SlotBounds(i: nat)
    requires i < 13
    ensures '-' in CanonicalLabels[i]
    ensures Before(CanonicalLabels[i], '-') == Starts[i]
    ensures Before(After(CanonicalLabels[i], '-'), '-') == Ends[i]
  {
    BoundsAreClocks(i);
    var a, b := Starts[i], Ends[i];
    assert '-' !in a && '-' !in b;
    if i < 7 {
      EarlyLabelJoin(i);
    } else {
      LateLabelJoin(i);
    }
    BeforeOfJoin(a, '-', b);
    AfterOfJoin(a, '-', b);
    BeforeOfNoSep(b, '-');
  }

  /** Each of the first seven labels is its start and end joined by `-`. */
  lemma EarlyLabelJoin(i: nat)
    requires i < 7
    ensures CanonicalLabels[i] == Starts[i] + "-" + Ends[i]
  {
  }

  /** Each of the last six labels is its start and end joined by `-`. */
  lemma LateLabelJoin(i: nat)
    requires 7 <= i < 13
    ensures CanonicalLabels[i] == Starts[i] + "-" + Ends[i]
  {
  }

  predicate InCanonical(t: string, i: nat)
    requires i < 13
  {
    !LexLess(t, Starts[i]) && LexLess(t, Ends[i])
  }

  lemma InSlotCanonical(t: string, i: nat)
    requires i < 13
    ensures InSlot(t, CanonicalLabels[i]) <==> InCanonical(t, i)
  {
    SlotBounds(i);
  }

  /** The index of the first range label at or after `i` that holds `t`. */
  function SlotIndexFrom(t: string, labels: seq<string>, i: nat): (r: Option<nat>)
    requires i <= |labels|
    ensures r.Some? ==> i <= r.value < |labels|
    decreases |labels| - i
  {
    if i == |labels| then None
    else if InSlot(t, labels[i]) then Some(i)
    else SlotIndexFrom(t, labels, i + 1)
  }

  /** The index found holds `t` and no label before it from `i` on does;
      no index means no label from `i` on holds `t`. */
  lemma {:induction false} SlotIndexFromSpec(t: string, labels: seq<string>, i: nat)
    requires i <= |labels|
    ensures var r := SlotIndexFrom(t, labels, i);
            && (r.Some? ==> InSlot(t, labels[r.value]))
            && (r.Some? ==> forall k :: i <= k < r.value ==> !InSlot(t, labels[k]))
            && (r.None? ==> forall k :: i <= k < |labels| ==> !InSlot(t, labels[k]))
    decreases |labels| - i
  {
    if i < |labels| && !InSlot(t, labels[i]) {
      SlotIndexFromSpec(t, labels, i + 1);
    }
  }

  /** `findContainingSlot(t)`: the first range in list order that holds
      `t`, or none. */
  function ContainingSlot(t: string): (r: Option<string>)
    ensures r.None? ==> forall k :: 0 <= k < 13 ==> !InSlot(t, CanonicalLabels[k])
    ensures r.Some? ==> InSlot(t, r.value)
  {
    SlotIndexFromSpec(t, CanonicalLabels, 0);
    match SlotIndexFrom(t, CanonicalLabels, 0)
    case Some(k) => Some(CanonicalLabels[k])
    case None => None
  }

  /** A time that no range holds has no containing slot. */
  lemma NoContainingSlot(t: string)
    requires forall k :: 0 <= k < 13 ==> !InSlot(t, CanonicalLabels[k])
    ensures ContainingSlot(t) == None
  {
    SlotIndexFromSpec(t, CanonicalLabels, 0);
  }

  /** The first range in list order that holds a time is its slot. */
  lemma FirstContainingSlot(t: string, k: nat)
    requires k < 13 && InSlot(t, CanonicalLabels[k])
    requires forall j :: 0 <= j < k ==> !InSlot(t, CanonicalLabels[j])
    ensures ContainingSlot(t) == Some(CanonicalLabels[k])
  {
    FirstIndex(t, CanonicalLabels, 0, k);
  }

  /** The search from `i` stops at the first label from `i` on that holds
      `t`. */
  lemma {:induction false} FirstIndex(t: string, labels: seq<string>, i: nat, k: nat)
    requires i <= k < |labels| && InSlot(t, labels[k])
    requires forall j :: i <= j < k ==> !InSlot(t, labels[j])
    ensures SlotIndexFrom(t, labels, i) == Some(k)
    decreases k - i
  {
    if i < k {
      FirstIndex(t, labels, i + 1, k);
    }
  }

  /** The loop of `findContainingSlot`, returning from inside it on the
      first hit. */
  method FindContainingSlot(t: string) returns (r: Option<string>)
    ensures r == ContainingSlot(t)
  {
    for i := 0 to 13
      invariant SlotIndexFrom(t, CanonicalLabels, i) == SlotIndexFrom(t, CanonicalLabels, 0)
    {
      var slot := CanonicalLabels[i];
      var start := Before(slot, '-');
      var end := if '-' in slot then Before(After(slot, '-'), '-') else [];
      if '-' in slot && !LexLess(t, start) && LexLess(t, end) {
        return Some(slot);
      }
    }
    return None;
  }

  /** No range holds a time that lies, in string order, from `lo` up to
      `hi` when every range ends by `lo` or starts from `hi`. */
  lemma NoSlotBetween(t: string, lo: string, hi: string)
    requires IsClock(lo) && IsClock(hi)
    requires !LexLess(t, lo) && LexLess(t, hi)
    requires forall i :: 0 <= i < 13 ==> !ClockLess(lo, Ends[i]) || !ClockLess(Starts[i], hi)
    ensures ContainingSlot(t) == None
  {
    forall i | 0 <= i < 13
      ensures !InSlot(t, CanonicalLabels[i])
    {
      InSlotCanonical(t, i);
      BoundsAreClocks(i);
      ClockLexLess(lo, Ends[i]);
      ClockLexLess(Starts[i], hi);
      if !LexLess(lo, Ends[i]) {
        if LexLess(t, Ends[i]) {
          LexLessLeTrans(t, Ends[i], lo);
        }
      } else {
        LexLessLeTrans(t, hi, Starts[i]);
      }
    }
    NoContainingSlot(t);
  }

  /** No range holds a time below `hi` when every range starts from `hi`. */
  lemma NoSlotBelow(t: string, hi: string)
    requires IsClock(hi) && LexLess(t, hi)
    requires forall i :: 0 <= i < 13 ==> !ClockLess(Starts[i], hi)
    ensures ContainingSlot(t) == None
  {
    forall i | 0 <= i < 13
      ensures !InSlot(t, CanonicalLabels[i])
    {
      InSlotCanonical(t, i);
      BoundsAreClocks(i);
      ClockLexLess(Starts[i], hi);
      LexLessLeTrans(t, hi, Starts[i]);
    }
    NoContainingSlot(t);
  }

  /** Times before 07:30 fall in no range. */
  lemma NoSlotBeforeOpening(t: string)
    requires LexLess(t, "07:30")
    ensures ContainingSlot(t) == None
  {
    NoSlotBelow(t, "07:30");
  }

  /** Times from 10:30 up to 12:00 fall in no range. */
  lemma NoSlotInMorningGap(t: string)
    requires !LexLess(t, "10:30") && LexLess(t, "12:00")
    ensures ContainingSlot(t) == None
  {
    NoSlotBetween(t, "10:30", "12:00");
  }

  /** Times from 14:30 up to 15:30 fall in no range. */
  lemma NoSlotInAfternoonGap(t: string)
    requires !LexLess(t, "14:30") && LexLess(t, "15:30")
    ensures ContainingSlot(t) == None
  {
    NoSlotBetween(t, "14:30", "15:30");
  }

  /** Times from 22:30 on fall in no range. */
  lemma NoSlotAfterClosing(t: string)
    requires !LexLess(t, "22:30")
    ensures ContainingSlot(t) == None
  {
    forall i | 0 <= i < 13
      ensures !InSlot(t, CanonicalLabels[i])
    {
      InSlotCanonical(t, i);
      BoundsAreClocks(i);
      ClockLexLess("22:30", Ends[i]);
      if LexLess(t, Ends[i]) {
        LexLessLeTrans(t, Ends[i], "22:30");
      }
    }
    NoContainingSlot(t);
  }

  /** The digits of an `HH:MM` string read as the number `HHMM`. */
  function ClockKey(s: string): int
    requires IsClock(s)
  {
    DigitValue(s[0]) * 1000 + DigitValue(s[1]) * 100 + DigitValue(s[3]) * 10 + DigitValue(s[4])
  }

  const StartKeys: seq<int> := [730, 830, 930, 1200, 1300, 1330, 1530, 1630, 1730, 1830, 1930, 2030, 2130]

  lemma StartKey(i: nat)
    requires i < 13
    ensures IsClock(Starts[i]) && ClockKey(Starts[i]) == StartKeys[i]
  {
  }

  lemma StartKeysDistinct(j: nat, k: nat)
    requires j < 13 && k < 13 && StartKeys[j] == StartKeys[k]
    ensures j == k
  {
  }

  lemma StartsDistinct(j: nat, k: nat)
    requires j < 13 && k < 13 && Starts[j] == Starts[k]
    ensures j == k
  {
    StartKey(j);
    StartKey(k);
    StartKeysDistinct(j, k);
  }

  /** The 13 labels are distinct. */
  lemma LabelsDistinct(j: nat, k: nat)
    requires j < 13 && k < 13 && CanonicalLabels[j] == CanonicalLabels[k]
    ensures j == k
  {
    SlotBounds(j);
    SlotBounds(k);
    StartsDistinct(j, k);
  }

  /** `13:30-14:30` overlaps `13:00-14:00`, which comes first in the list,
      so it is chosen only for times from 14:00 up to 14:30. */
  lemma OverlappingSlotOnlyAfterTwo(t: string)
    requires ContainingSlot(t) == Some("13:30-14:30")
    ensures !LexLess(t, "14:00") && LexLess(t, "14:30")
  {
    LabelFive();
    FifthSlotOnlyAfterTwo(t);
  }

  lemma LabelFive()
    ensures CanonicalLabels[5] == "13:30-14:30"
  {
  }

  /** The proof of OverlappingSlotOnlyAfterTwo, on the label's index. */
  lemma FifthSlotOnlyAfterTwo(t: string)
    requires ContainingSlot(t) == Some(CanonicalLabels[5])
    ensures !LexLess(t, "14:00") && LexLess(t, "14:30")
  {
    var k := SlotIndexFrom(t, CanonicalLabels, 0).value;
    SlotIndexFromSpec(t, CanonicalLabels, 0);
    LabelsDistinct(k, 5);
    InSlotCanonical(t, 5);
    InSlotCanonical(t, 4);
    AfterFourthStart(t);
    EndsOfOverlap();
  }

  /** A time from the start of the sixth range on is past the start of the
      fifth. */
  lemma AfterFourthStart(t: string)
    requires !LexLess(t, Starts[5])
    ensures !LexLess(t, Starts[4])
  {
    BoundsAreClocks(4);
    BoundsAreClocks(5);
    ClockLexLess(Starts[5], Starts[4]);
    if LexLess(t, Starts[4]) {
      LexLessLeTrans(t, Starts[4], Starts[5]);
      assert false;
    }
  }

  lemma EndsOfOverlap()
    ensures Ends[4] == "14:00" && Ends[5] == "14:30"
  {
  }

  /** A time `H:...` whose hour has a single digit and is not padded. */
  predicate IsUnpaddedHour(t: string, d: char) {
    |t| >= 2 && t[0] == d && IsDigit(d) && t[1] == ':'
  }

  /** An unpadded `d:...` is below a `HH:MM` string exactly when `d` is
      below its first digit: `:` sorts after every digit. */
  lemma UnpaddedVersusClock(t: string, d: char, c: string)
    requires IsUnpaddedHour(t, d) && IsClock(c)
    ensures LexLess(t, c) <==> d < c[0]
  {
    assert LexLess(t[1..], c[1..]) <==> t[1] < c[1];
  }

  /** An unpadded `d:...` is in a range exactly when `d` lies from the
      first digit of its start up to, not including, the first digit of
      its end. */
  lemma UnpaddedInSlot(t: string, d: char, i: nat)
    requires IsUnpaddedHour(t, d) && i < 13
    ensures InSlot(t, CanonicalLabels[i]) <==> Starts[i][0] <= d < Ends[i][0]
  {
    InSlotCanonical(t, i);
    BoundsAreClocks(i);
    UnpaddedVersusClock(t, d, Starts[i]);
    UnpaddedVersusClock(t, d, Ends[i]);
  }

  /** The first digit of each range's end: `0` for the first two, at
      most `1` up to `19:30`, and never above `2`. */
  lemma EndHourDigit(j: nat)
    requires j < 13
    ensures j < 2 ==> Ends[j][0] == '0'
    ensures j < 10 ==> Ends[j][0] <= '1'
    ensures Ends[j][0] <= '2'
  {
  }

  /** Because `:` sorts after every digit, an unpadded `0:MM` compares
      above `09:30` and below `10:30`: it falls in the `09:30-10:30`
      range. */
  lemma UnpaddedHourZeroSlot(t: string)
    requires IsUnpaddedHour(t, '0')
    ensures ContainingSlot(t) == Some("09:30-10:30")
  {
    forall j | 0 <= j < 2
      ensures !InSlot(t, CanonicalLabels[j])
    {
      UnpaddedInSlot(t, '0', j);
      EndHourDigit(j);
    }
    UnpaddedInSlot(t, '0', 2);
    FirstContainingSlot(t, 2);
  }

  /** An unpadded `1:MM` compares above `19:30` and below `20:30`: it
      falls in the `19:30-20:30` range. */
  lemma UnpaddedHourOneSlot(t: string)
    requires IsUnpaddedHour(t, '1')
    ensures ContainingSlot(t) == Some("19:30-20:30")
  {
    forall j | 0 <= j < 10
      ensures !InSlot(t, CanonicalLabels[j])
    {
      UnpaddedInSlot(t, '1', j);
      EndHourDigit(j);
    }
    UnpaddedInSlot(t, '1', 10);
    FirstContainingSlot(t, 10);
  }

  /** Unpadded hours 2 to 9 fall in no range. */
  lemma UnpaddedLaterHourNoSlot(t: string, d: char)
    requires IsUnpaddedHour(t, d) && '2' <= d <= '9'
    ensures ContainingSlot(t) == None
  {
    forall j | 0 <= j < 13
      ensures !InSlot(t, CanonicalLabels[j])
    {
      UnpaddedInSlot(t, d, j);
      EndHourDigit(j);
    }
    NoContainingSlot(t);
  }

  /** For an `HH:MM` time, the first range whose bounds enclose it in
      field-by-field order is its slot. */
  lemma ClockSlot(t: string, k: nat)
    requires IsClock(t) && k < 13
    requires !ClockLess(t, Starts[k]) && ClockLess(t, Ends[k])
    requires forall j :: 0 <= j < k ==> ClockLess(t, Starts[j]) || !ClockLess(t, Ends[j])
    ensures ContainingSlot(t) == Some(CanonicalLabels[k])
  {
    forall j | 0 <= j <= k
      ensures InSlot(t, CanonicalLabels[j]) <==> j == k
    {
      InSlotCanonical(t, j);
      BoundsAreClocks(j);
      ClockLexLess(t, Starts[j]);
      ClockLexLess(t, Ends[j]);
    }
    FirstContainingSlot(t, k);
  }

  /** 19:30 and 19:45 fall in the 19:30-20:30 range. */
  lemma SlotExampleEvening(t: string)
    requires t == "19:30" || t == "19:45"
    ensures ContainingSlot(t) == Some("19:30-20:30")
  {
    ClockSlot(t, 10);
    assert CanonicalLabels[10] == "19:30-20:30";
  }
}
