/** `GET /api/analytics` in both servers: the confirmed bookings' times are
    counted in an object (`timeCounts`), its entries sorted by descending
    count, and the first three shown on a 12-hour clock. */
module Analytics {
  import opened BookingSchema
  import opened TimeFormat

  /** `Object.entries(timeCounts)`: time and count, in the order the times
      were first seen. */
  type Counts = seq<(string, nat)>

  /** `timeCounts[t] = (timeCounts[t] || 0) + 1` */
  function Bump(c: Counts, t: string): (r: Counts)
  {
    if c == [] then [(t, 1)]
    else if c[0].0 == t then [(t, c[0].1 + 1)] + c[1..]
    else [c[0]] + Bump(c[1..], t)
  }

  /** The entries after counting `times` one by one. */
  function CountsOf(times: seq<string>): Counts {
    if times == [] then [] else Bump(CountsOf(times[..|times| - 1]), times[|times| - 1])
  }

  /** The times of `c`, each once. */
  predicate DistinctKeys(c: Counts) {
    forall i, j :: 0 <= i < j < |c| ==> c[i].0 != c[j].0
  }

  /** Counting a time already present adds one to its first entry. */
  lemma {:induction false} BumpFound(c: Counts, t: string, i: nat)
    requires i < |c| && c[i].0 == t
    requires forall j :: 0 <= j < i ==> c[j].0 != t
    ensures Bump(c, t) == c[i := (t, c[i].1 + 1)]
  {
    if i > 0 {
      BumpFound(c[1..], t, i - 1);
      assert Bump(c, t) == [c[0]] + c[1..][i - 1 := (t, c[i].1 + 1)];
    }
  }

  /** Counting a new time appends it with count 1. */
  lemma {:induction false} BumpAbsent(c: Counts, t: string)
    requires forall i :: 0 <= i < |c| ==> c[i].0 != t
    ensures Bump(c, t) == c + [(t, 1)]
  {
    if c != [] {
      BumpAbsent(c[1..], t);
      assert Bump(c, t) == [c[0]] + (c[1..] + [(t, 1)]);
    }
  }

  /** One increment keeps the times distinct, adds one to the time's
      entry or appends the time with 1, and changes no other entry. */
  lemma BumpCounts(c: Counts, t: string)
    requires DistinctKeys(c)
    ensures DistinctKeys(Bump(c, t))
    ensures forall i :: 0 <= i < |c| && c[i].0 == t ==> Bump(c, t) == c[i := (t, c[i].1 + 1)]
    ensures (forall i :: 0 <= i < |c| ==> c[i].0 != t) ==> Bump(c, t) == c + [(t, 1)]
  {
    if i :| 0 <= i < |c| && c[i].0 == t {
      BumpFound(c, t, i);
    } else {
      BumpAbsent(c, t);
    }
  }

  /** `c` counts `times`: each time that was seen appears once, with the
      number of times it was seen, and no other time appears. */
  predicate Tally(c: Counts, times: seq<string>) {
    && DistinctKeys(c)
    && (forall e :: e in c ==> e.1 == multiset(times)[e.0] && e.1 > 0)
    && (forall t :: t in times ==> (t, multiset(times)[t]) in c)
  }

  /** Counting a time seen before keeps the tally. */
  lemma TallyBumpSeen(c: Counts, times: seq<string>, t: string)
    requires Tally(c, times) && t in times
    ensures Tally(Bump(c, t), times + [t])
  {
    var i :| 0 <= i < |c| && c[i] == (t, multiset(times)[t]);
    BumpCounts(c, t);
    TallyIncrement(c, times, i);
  }

  /** Adding one to the entry of the time `c[i]` tallies one more sighting
      of it. */
  lemma TallyIncrement(c: Counts, times: seq<string>, i: nat)
    requires Tally(c, times) && i < |c|
    ensures Tally(c[i := (c[i].0, c[i].1 + 1)], times + [c[i].0])
  {
    var t := c[i].0;
    var r := c[i := (t, c[i].1 + 1)];
    var m := multiset(times + [t]);
    assert m == multiset(times) + multiset{t};
    assert DistinctKeys(r);
    forall e | e in r
      ensures e.1 == m[e.0] && e.1 > 0
    {
      var k :| 0 <= k < |r| && r[k] == e;
      if k != i {
        assert c[k] in c;
      } else {
        assert c[i] in c;
      }
    }
    forall u | u in times + [t]
      ensures (u, m[u]) in r
    {
      if u == t {
        assert c[i] in c;
        assert r[i] == (u, m[u]);
      } else {
        assert u in times;
        var k :| 0 <= k < |c| && c[k] == (u, multiset(times)[u]);
        assert k != i && r[k] == c[k];
      }
    }
  }

  /** Counting a new time keeps the tally. */
  lemma TallyBumpNew(c: Counts, times: seq<string>, t: string)
    requires Tally(c, times) && t !in times
    ensures Tally(Bump(c, t), times + [t])
  {
    assert multiset(times + [t]) == multiset(times) + multiset{t};
    forall i | 0 <= i < |c|
      ensures c[i].0 != t
    {
      assert c[i] in c;
    }
    BumpCounts(c, t);
  }

  /** Counting the times one by one tallies them. */
  lemma {:induction false} CountsOfCounts(times: seq<string>)
    ensures Tally(CountsOf(times), times)
  {
    if times != [] {
      var init := times[..|times| - 1];
      var t := times[|times| - 1];
      assert times == init + [t];
      CountsOfCounts(init);
      if t in init {
        TallyBumpSeen(CountsOf(init), init, t);
      } else {
        TallyBumpNew(CountsOf(init), init, t);
      }
    }
  }

  /** The `forEach` that fills `timeCounts`. */
  method CountTimes(times: seq<string>) returns (counts: Counts)
    ensures counts == CountsOf(times)
  {
    counts := [];
    for i := 0 to |times|
      invariant counts == CountsOf(times[..i])
    {
      assert times[..i + 1][..i] == times[..i];
      counts := Bump(counts, times[i]);
    }
    assert times[..|times|] == times;
  }

  /** Entries ordered by non-increasing count. */
  predicate SortedDesc(c: Counts) {
    forall i, j :: 0 <= i < j < |c| ==> c[i].1 >= c[j].1
  }

  /** One step of a stable sort: `e`, seen after every entry of `s`, goes
      behind all entries with a count at least its own. */
  function Insert(e: (string, nat), s: Counts): (r: Counts)
    ensures multiset(r) == multiset(s) + multiset{e}
    ensures |r| == |s| + 1
  {
    if s == [] then [e]
    else if s[0].1 >= e.1 then
      assert s == [s[0]] + s[1..];
      [s[0]] + Insert(e, s[1..])
    else [e] + s
  }

  lemma {:induction false} InsertSorted(e: (string, nat), s: Counts)
    requires SortedDesc(s)
    ensures SortedDesc(Insert(e, s))
  {
    if s != [] && s[0].1 >= e.1 {
      InsertSorted(e, s[1..]);
      var r := Insert(e, s);
      forall j | 0 < j < |r|
        ensures r[0].1 >= r[j].1
      {
        var x := r[j];
        assert r[1..] == Insert(e, s[1..]);
        assert x in multiset(s[1..]) + multiset{e};
        if x != e {
          assert x in s[1..];
        }
      }
    }
  }

  /** `.sort((a, b) => b[1] - a[1])`: a stable sort by descending count. */
  function SortByCount(c: Counts): (r: Counts)
    ensures multiset(r) == multiset(c) && |r| == |c|
  {
    if c == [] then []
    else
      assert c == c[..|c| - 1] + [c[|c| - 1]];
      Insert(c[|c| - 1], SortByCount(c[..|c| - 1]))
  }

  /** The sort orders by descending count and keeps every entry. */
  lemma {:induction false} SortByCountSorted(c: Counts)
    ensures SortedDesc(SortByCount(c))
    ensures multiset(SortByCount(c)) == multiset(c)
  {
    if c != [] {
      SortByCountSorted(c[..|c| - 1]);
      InsertSorted(c[|c| - 1], SortByCount(c[..|c| - 1]));
    }
  }

  /** `.slice(0, 3)` after the sort. */
  function Top3(c: Counts): (r: Counts)
    ensures |r| == if |c| < 3 then |c| else 3
  {
    var s := SortByCount(c);
    if |s| <= 3 then s else s[..3]
  }

  /** The three shown times are among the most frequent: any time left
      out was seen at most as often as each time shown. */
  lemma TopDominates(c: Counts, e: (string, nat))
    requires e in c && e !in Top3(c)
    ensures forall f :: f in Top3(c) ==> f.1 >= e.1
  {
    var s := SortByCount(c);
    SortByCountSorted(c);
    assert e in multiset(s);
    var k :| 0 <= k < |s| && s[k] == e;
    assert k >= 3;
    forall f | f in Top3(c)
      ensures f.1 >= e.1
    {
      var i :| 0 <= i < |Top3(c)| && Top3(c)[i] == f;
      assert s[i] == f;
    }
  }

  /** `.map(([t]) => to12h(t))` */
  function Shown(top: Counts): (r: seq<string>)
    ensures |r| == |top|
    ensures forall i :: 0 <= i < |top| ==> r[i] == To12h(top[i].0)
  {
    seq(|top|, i requires 0 <= i < |top| => To12h(top[i].0))
  }

  /** server-mongodb.js: the shown times, or `No data available`. */
  function PeakHours(c: Counts): (r: seq<string>)
    ensures 1 <= |r| <= 3
    ensures c == [] <==> r == ["No data available"]
  {
    var top := Top3(c);
    if top == [] then ["No data available"]
    else
      assert To12h(top[0].0) != "No data available" by {
        To12hShape(top[0].0);
      }
      Shown(top)
  }

  /** The fallback of server.js when no booking is confirmed. */
  const LegacyDefaultPeaks: seq<string> := ["7:00 PM", "8:00 PM", "9:00 PM"]

  /** server.js: the shown times, or the default evening hours. */
  function PeakHoursLegacy(c: Counts): (r: seq<string>)
    ensures 1 <= |r| <= 3
    ensures c == [] ==> r == LegacyDefaultPeaks
    ensures c != [] ==> r == PeakHours(c)
  {
    if c == [] then LegacyDefaultPeaks else Shown(Top3(c))
  }

  /** A formatted time ends in ` AM` or ` PM`. */
  lemma To12hShape(t: string)
    ensures |To12h(t)| >= 3 && To12h(t)[|To12h(t)| - 3..] in {" AM", " PM"}
  {
  }

  /** `Booking.find({ status: 'confirmed' })`, as the times it yields. */
  function ConfirmedTimes(bs: seq<Booking>): (ts: seq<string>)
    ensures forall t :: t in ts <==> exists b :: b in bs && b.status == Confirmed && b.time == t
    ensures |ts| <= |bs|
  {
    if bs == [] then []
    else ConfirmedTimes(bs[..|bs| - 1]) + (if bs[|bs| - 1].status == Confirmed then [bs[|bs| - 1].time] else [])
  }

  /** The peak-hours part of `GET /api/analytics`. */
  method ComputePeakHours(bookings: seq<Booking>, legacy: bool) returns (peaks: seq<string>)
    ensures var c := CountsOf(ConfirmedTimes(bookings));
            peaks == if legacy then PeakHoursLegacy(c) else PeakHours(c)
  {
    var timeCounts := CountTimes(ConfirmedTimes(bookings));
    peaks := if legacy then PeakHoursLegacy(timeCounts) else PeakHours(timeCounts);
  }

  /** Without confirmed bookings the two servers disagree: one reports no
      data, the other the evening default. */
  lemma NoConfirmedBookings(bs: seq<Booking>)
    requires forall b :: b in bs ==> b.status != Confirmed
    ensures PeakHours(CountsOf(ConfirmedTimes(bs))) == ["No data available"]
    ensures PeakHoursLegacy(CountsOf(ConfirmedTimes(bs))) == LegacyDefaultPeaks
  {
    assert ConfirmedTimes(bs) == [];
  }
}
