/** The trips a session is shown (components/trip/TripList.tsx): a driver sees
    only their own trips, and the list is then narrowed by a date or by an
    inclusive range of months. */
module TripList {
  import opened Wrappers
  import opened JsString

  /** The fields of a trip the list's filters read. */
  datatype Trip = Trip(id: string, driverId: string, startDate: string)

  datatype FilterType = All | ByDate | ByMonth

  /** The list's filter state: `filterType`, `selectedDate`, `startMonth`, `endMonth`. */
  datatype Filters = Filters(filterType: FilterType, selectedDate: string, startMonth: string, endMonth: string)

  // ---------------------------------------------------------------------------
  // Array.prototype.filter

  /** `a` is `b` with some elements left out, the rest in their order. */
  ghost predicate IsSubsequence<T>(a: seq<T>, b: seq<T>)
    decreases |b|
  {
    a == [] || (b != [] && ((a[0] == b[0] && IsSubsequence(a[1..], b[1..])) || IsSubsequence(a, b[1..])))
  }

  lemma {:induction false} SubsequenceReflexive<T>(s: seq<T>)
    ensures IsSubsequence(s, s)
  {
    if s != [] {
      SubsequenceReflexive(s[1..]);
    }
  }

  lemma {:induction false} SubsequenceTransitive<T>(a: seq<T>, b: seq<T>, c: seq<T>)
    requires IsSubsequence(a, b) && IsSubsequence(b, c)
    ensures IsSubsequence(a, c)
    decreases |c|
  {
    if a != [] {
      if b[0] == c[0] && IsSubsequence(b[1..], c[1..]) {
        if a[0] == b[0] && IsSubsequence(a[1..], b[1..]) {
          SubsequenceTransitive(a[1..], b[1..], c[1..]);
        } else {
          SubsequenceTransitive(a, b[1..], c[1..]);
        }
      } else {
        SubsequenceTransitive(a, b, c[1..]);
      }
    }
  }

  /** `s.filter(keep)`: the elements `keep` accepts, in order. */
  function Filter<T(!new)>(s: seq<T>, keep: T -> bool): (r: seq<T>)
    ensures forall x :: x in r <==> x in s && keep(x)
    ensures forall x :: multiset(r)[x] == if keep(x) then multiset(s)[x] else 0
    ensures IsSubsequence(r, s)
  {
    if s == [] then []
    else
      assert s == [s[0]] + s[1..];
      if keep(s[0]) then [s[0]] + Filter(s[1..], keep)
      else Filter(s[1..], keep)
  }

  /** A filter that accepts every element returns the sequence itself. */
  lemma {:induction false} FilterKeepsAll<T(!new)>(s: seq<T>, keep: T -> bool)
    requires forall x :: x in s ==> keep(x)
    ensures Filter(s, keep) == s
  {
    if s != [] {
      FilterKeepsAll(s[1..], keep);
    }
  }

  // ---------------------------------------------------------------------------
  // displayedTrips

  /** `currentDriverId ? trip.driverId === currentDriverId : true`. */
  predicate VisibleTo(currentDriverId: Option<string>, t: Trip)
  {
    currentDriverId.None? || currentDriverId.value == "" || t.driverId == currentDriverId.value
  }

  /** displayedTrips: a driver's own trips, or every trip when no driver is signed in. */
  function DisplayedTrips(trips: seq<Trip>, currentDriverId: Option<string>): (r: seq<Trip>)
    ensures forall t :: t in r <==> t in trips && VisibleTo(currentDriverId, t)
    ensures forall t :: multiset(r)[t] == if VisibleTo(currentDriverId, t) then multiset(trips)[t] else 0
    ensures IsSubsequence(r, trips)
    ensures currentDriverId.Some? && currentDriverId.value != "" ==>
      forall k :: 0 <= k < |r| ==> r[k].driverId == currentDriverId.value
  {
    if currentDriverId.Some? && currentDriverId.value != "" then
      var d := currentDriverId.value;
      var r := Filter(trips, (t: Trip) => t.driverId == d);
      assert forall k :: 0 <= k < |r| ==> r[k] in r;
      r
    else
      SubsequenceReflexive(trips);
      trips
  }

  // ---------------------------------------------------------------------------
  // filteredTrips

  predicate IsDigit(c: char)
  {
    '0' <= c <= '9'
  }

  function DigitValue(c: char): nat
    requires IsDigit(c)
  {
    c as int - '0' as int
  }

  function TwoDigits(s: string): nat
    requires |s| == 2 && IsDigit(s[0]) && IsDigit(s[1])
  {
    10 * DigitValue(s[0]) + DigitValue(s[1])
  }

  predicate IsLeapYear(y: nat)
  {
    y % 4 == 0 && (y % 100 != 0 || y % 400 == 0)
  }

  function DaysInMonth(y: nat, m: nat): nat
    requires 1 <= m <= 12
  {
    if m == 2 then (if IsLeapYear(y) then 29 else 28)
    else if m == 4 || m == 6 || m == 9 || m == 11 then 30
    else 31
  }

  /** The year a `YYYY-...` string starts with. */
  function YearValue(d: string): nat
    requires |d| >= 4 && IsDigit(d[0]) && IsDigit(d[1]) && IsDigit(d[2]) && IsDigit(d[3])
  {
    1000 * DigitValue(d[0]) + 100 * DigitValue(d[1]) + TwoDigits(d[2..4])
  }

  /** A `YYYY-MM-DD` string naming a day of the calendar. */
  predicate IsIsoDate(d: string)
  {
    && |d| == 10
    && IsDigit(d[0]) && IsDigit(d[1]) && IsDigit(d[2]) && IsDigit(d[3]) && d[4] == '-'
    && IsDigit(d[5]) && IsDigit(d[6]) && d[7] == '-' && IsDigit(d[8]) && IsDigit(d[9])
    && 1 <= TwoDigits(d[5..7]) <= 12
    && 1 <= TwoDigits(d[8..10])
    && TwoDigits(d[8..10]) <= DaysInMonth(YearValue(d), TwoDigits(d[5..7]))
  }

  function DigitChar(n: nat): char
    requires n < 10
  {
    ('0' as int + n) as char
  }

  /** `String(n)` for a whole number: its decimal digits, without leading zeros. */
  function DecimalText(n: nat): (r: string)
    ensures r != []
  {
    if n < 10 then [DigitChar(n)] else DecimalText(n / 10) + [DigitChar(n % 10)]
  }

  /** `String(n).padStart(2, '0')`. */
  function PadTwo(n: nat): string
  {
    if n < 10 then ['0', DigitChar(n)] else DecimalText(n)
  }

  /** The `YYYY-MM` the list computes from `new Date(startDate + 'T00:00:00')`:
      `getFullYear()` as a plain number, a dash, and the month padded to two
      digits; `NaN-NaN` for an invalid date. */
  function YearMonth(startDate: string): string
  {
    if IsIsoDate(startDate) then DecimalText(YearValue(startDate)) + "-" + PadTwo(TwoDigits(startDate[5..7]))
    else "NaN-NaN"
  }

  lemma DigitRoundTrip(c: char)
    requires IsDigit(c)
    ensures DigitChar(DigitValue(c)) == c
  {
  }

  /** A year from 1000 on prints as its four digits. */
  lemma FourDigitYear(d: string)
    requires |d| >= 4 && IsDigit(d[0]) && IsDigit(d[1]) && IsDigit(d[2]) && IsDigit(d[3]) && d[0] != '0'
    ensures DecimalText(YearValue(d)) == d[..4]
  {
    var a, b, c, e := DigitValue(d[0]), DigitValue(d[1]), DigitValue(d[2]), DigitValue(d[3]);
    var ab := 10 * a + b;
    var abc := 10 * ab + c;
    assert YearValue(d) == 10 * abc + e;
    AppendDigit(a, b);
    AppendDigit(ab, c);
    AppendDigit(abc, e);
    DigitRoundTrip(d[0]);
    DigitRoundTrip(d[1]);
    DigitRoundTrip(d[2]);
    DigitRoundTrip(d[3]);
    assert DecimalText(ab) == [d[0], d[1]];
    assert DecimalText(abc) == [d[0], d[1], d[2]];
  }

  /** Appending a digit `e` to the decimal text of a positive `q` writes `10 * q + e`. */
  lemma AppendDigit(q: nat, e: nat)
    requires 0 < q && e < 10
    ensures DecimalText(10 * q + e) == DecimalText(q) + [DigitChar(e)]
  {
    assert (10 * q + e) / 10 == q && (10 * q + e) % 10 == e;
  }

  /** A year before 1000 prints with at most three digits. */
  lemma ShortYear(y: nat)
    requires y < 1000
    ensures |DecimalText(y)| <= 3
  {
    if y >= 10 {
      var z := y / 10;
      assert z < 100;
      if z >= 10 {
        assert z / 10 < 10;
        assert |DecimalText(z / 10)| == 1;
      }
      assert |DecimalText(z)| <= 2;
    }
  }

  /** A valid date from the year 1000 on gives its own first seven characters; a
      valid date before the year 1000 gives a shorter string, the year without its
      leading zeros (`0999-05-01` gives `999-05`); an invalid date gives `NaN-NaN`. */
  lemma YearMonthSpec(startDate: string)
    ensures IsIsoDate(startDate) && startDate[0] != '0' ==> YearMonth(startDate) == startDate[..7]
    ensures IsIsoDate(startDate) && startDate[0] == '0' ==>
      |YearMonth(startDate)| < 7 && YearMonth(startDate)[|YearMonth(startDate)| - 3..] == startDate[4..7]
    ensures !IsIsoDate(startDate) ==> YearMonth(startDate) == "NaN-NaN"
  {
    if IsIsoDate(startDate) {
      var m := startDate[5..7];
      DigitRoundTrip(m[0]);
      DigitRoundTrip(m[1]);
      if TwoDigits(m) >= 10 {
        assert TwoDigits(m) / 10 == DigitValue(m[0]) && TwoDigits(m) % 10 == DigitValue(m[1]);
      }
      assert PadTwo(TwoDigits(m)) == m;
      if startDate[0] != '0' {
        FourDigitYear(startDate);
      } else {
        ShortYear(YearValue(startDate));
      }
    }
  }

  /** `tripYearMonth >= startMonth && tripYearMonth <= endMonth`. */
  predicate InMonthRange(ym: string, startMonth: string, endMonth: string)
  {
    AtMost(startMonth, ym) && AtMost(ym, endMonth)
  }

  /** The date filter or the month filter is switched on and filled in. */
  predicate FilterActive(f: Filters)
  {
    (f.filterType == ByDate && f.selectedDate != "")
    || (f.filterType == ByMonth && f.startMonth != "" && f.endMonth != "")
  }

  /** The predicate filteredTrips applies to each displayed trip. */
  predicate KeepTrip(f: Filters, t: Trip)
  {
    if f.filterType == ByDate && f.selectedDate != "" then t.startDate == f.selectedDate
    else if f.filterType == ByMonth && f.startMonth != "" && f.endMonth != "" then
      InMonthRange(YearMonth(t.startDate), f.startMonth, f.endMonth)
    else true
  }

  /** filteredTrips: the displayed trips the current filters keep. */
  function FilteredTrips(trips: seq<Trip>, currentDriverId: Option<string>, f: Filters): seq<Trip>
  {
    Filter(DisplayedTrips(trips, currentDriverId), (t: Trip) => KeepTrip(f, t))
  }

  /** handleClearFilters: the state it sets. */
  function ClearFilters(): (f: Filters)
    ensures !FilterActive(f)
    ensures f.filterType == All
  {
    Filters(All, "", "", "")
  }

  // ---------------------------------------------------------------------------
  // Properties

  /** The list shows exactly the trips visible to the session that the filters keep,
      each as often as the trips hold it, in their original order; a driver never
      sees another driver's trip. */
  lemma FilteredTripsSpec(trips: seq<Trip>, currentDriverId: Option<string>, f: Filters)
    ensures var r := FilteredTrips(trips, currentDriverId, f);
      && IsSubsequence(r, trips)
      && (forall t :: t in r <==> t in trips && VisibleTo(currentDriverId, t) && KeepTrip(f, t))
      && (forall t :: multiset(r)[t] == if VisibleTo(currentDriverId, t) && KeepTrip(f, t) then multiset(trips)[t] else 0)
      && (currentDriverId.Some? && currentDriverId.value != "" ==>
            forall k :: 0 <= k < |r| ==> r[k].driverId == currentDriverId.value)
  {
    var shown := DisplayedTrips(trips, currentDriverId);
    var r := FilteredTrips(trips, currentDriverId, f);
    SubsequenceTransitive(r, shown, trips);
    if currentDriverId.Some? && currentDriverId.value != "" {
      forall k | 0 <= k < |r| ensures r[k].driverId == currentDriverId.value {
        assert r[k] in shown;
      }
    }
  }

  /** With no driver signed in, every trip is displayed. */
  lemma NoDriverShowsAll(trips: seq<Trip>, currentDriverId: Option<string>)
    requires currentDriverId.None? || currentDriverId.value == ""
    ensures DisplayedTrips(trips, currentDriverId) == trips
  {
  }

  /** A filter that is off, or not filled in, keeps every displayed trip. */
  lemma InactiveFiltersKeepAll(trips: seq<Trip>, currentDriverId: Option<string>, f: Filters)
    requires !FilterActive(f)
    ensures FilteredTrips(trips, currentDriverId, f) == DisplayedTrips(trips, currentDriverId)
  {
    FilterKeepsAll(DisplayedTrips(trips, currentDriverId), (t: Trip) => KeepTrip(f, t));
  }

  /** The date filter keeps exactly the displayed trips starting on the selected date. */
  lemma DateFilterExact(trips: seq<Trip>, currentDriverId: Option<string>, f: Filters)
    requires f.filterType == ByDate && f.selectedDate != ""
    ensures forall t :: t in FilteredTrips(trips, currentDriverId, f) <==>
      t in DisplayedTrips(trips, currentDriverId) && t.startDate == f.selectedDate
  {
  }

  /** The month filter keeps exactly the displayed trips whose month lies in the
      inclusive range, and none at all when the range is reversed. */
  lemma MonthFilterRange(trips: seq<Trip>, currentDriverId: Option<string>, f: Filters)
    requires f.filterType == ByMonth && f.startMonth != "" && f.endMonth != ""
    ensures forall t :: t in FilteredTrips(trips, currentDriverId, f) <==>
      t in DisplayedTrips(trips, currentDriverId) && InMonthRange(YearMonth(t.startDate), f.startMonth, f.endMonth)
    ensures LessThan(f.endMonth, f.startMonth) ==> FilteredTrips(trips, currentDriverId, f) == []
  {
    var r := FilteredTrips(trips, currentDriverId, f);
    if LessThan(f.endMonth, f.startMonth) && r != [] {
      EmptyRange(f.startMonth, f.endMonth, YearMonth(r[0].startDate));
      assert r[0] in r;
    }
  }

  /** After handleClearFilters every trip visible to the session is listed, in order. */
  lemma ClearedFiltersShowAllVisible(trips: seq<Trip>, currentDriverId: Option<string>)
    ensures FilteredTrips(trips, currentDriverId, ClearFilters()) == DisplayedTrips(trips, currentDriverId)
  {
    InactiveFiltersKeepAll(trips, currentDriverId, ClearFilters());
  }
}
