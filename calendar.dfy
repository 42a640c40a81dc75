/**
 * The holiday calendar: the `YYYYMMDD` and `MMDD` keys a day cell looks
 * up (app.js:2793-2796), the exact-plus-yearly lookup with its
 * de-duplication (app.js:2800-2812, repeated at app.js:2842-2854),
 * `changeMonth` (app.js:2826-2836) and the loading of the parsed feed
 * (app.js:2922-2939).
 */
module Calendar {
  import opened Wrappers
  import opened Text
  import opened IcsText
  import opened Ics

  /** `${n}` for an integer. */
  function IntString(n: int): (r: string)
    ensures n >= 0 ==> r == Decimal(n)
  {
    if n < 0 then "-" + Decimal(-n) else Decimal(n)
  }

  /** `String(n).padStart(2, '0')` */
  function TwoDigits(n: nat): string {
    PadStart2(Decimal(n))
  }

  /** The exact key of day `day` of month `m` (1-based) of `year`. */
  function DateKey(year: int, m: nat, day: nat): string {
    IntString(year) + TwoDigits(m) + TwoDigits(day)
  }

  /** The key yearly holidays are filed under. */
  function MmddKey(m: nat, day: nat): string {
    TwoDigits(m) + TwoDigits(day)
  }

  lemma TwoDigitsShape(n: nat)
    requires n < 100
    ensures |TwoDigits(n)| == 2 && AllDigits(TwoDigits(n)) && DigitsValue(TwoDigits(n)) == n
  {
    var t := TwoDigits(n);
    if n < 10 {
      assert t == ['0', DigitChar(n)];
      assert t[..1] == ['0'];
      assert DigitsValue(['0']) == 0 by {
        assert ['0'][..0] == [];
      }
    } else {
      DecimalLength(n, 1);
      DecimalRoundTrip(n);
    }
  }

  /** Four digits followed by two and two: where each part sits in the eight. */
  lemma EightDigits(y: string, a: string, b: string)
    requires |y| == 4 && |a| == 2 && |b| == 2 && AllDigits(y) && AllDigits(a) && AllDigits(b)
    ensures var k := y + a + b;
      && |k| == 8 && AllDigits(k) && AllDigits(a + b)
      && k[..4] == y && k[4..] == a + b && k[4..6] == a && k[6..] == b
  {
    var k := y + a + b;
    assert k == y + (a + b);
  }

  /** The exact key is the four year digits followed by the yearly key. */
  lemma DateKeyParts(year: int, m: nat, day: nat)
    requires 1000 <= year <= 9999 && 1 <= m <= 12 && 1 <= day <= 31
    ensures var k := DateKey(year, m, day);
      && |k| == 8 && AllDigits(k) && AllDigits(MmddKey(m, day))
      && k[..4] == Decimal(year) && k[4..] == MmddKey(m, day)
      && k[4..6] == TwoDigits(m) && k[6..] == TwoDigits(day)
  {
    assert Pow10(3) == 1000 && Pow10(4) == 10000;
    DecimalLength(year, 3);
    TwoDigitsShape(m);
    TwoDigitsShape(day);
    EightDigits(Decimal(year), TwoDigits(m), TwoDigits(day));
  }

  /** An eight-digit key is its own DTSTART date. */
  lemma EightDigitsAreADate(k: string)
    requires |k| == 8 && AllDigits(k)
    ensures DateOf(k) == Some(k)
  {
    assert k[0..8] == k;
    assert DigitRunAt(k, 0);
  }

  /** The parts of the exact key read back as the year, month and day. */
  lemma DateKeyValues(year: int, m: nat, day: nat)
    requires 1000 <= year <= 9999 && 1 <= m <= 12 && 1 <= day <= 31
    ensures var k := DateKey(year, m, day);
      && AllDigits(k) && |k| == 8
      && DigitsValue(k[..4]) == year && DigitsValue(k[4..6]) == m && DigitsValue(k[6..]) == day
  {
    DateKeyParts(year, m, day);
    DecimalRoundTrip(year);
    TwoDigitsShape(m);
    TwoDigitsShape(day);
  }

  /**
   * For a four-digit year and a real month and day, the exact key is eight
   * digits that read back as the year, month and day; its last four are
   * the yearly key, which is what `parseICS` files a yearly holiday under,
   * and the DTSTART reader takes the whole key as the date.
   */
  lemma DateKeyShape(year: int, m: nat, day: nat)
    requires 1000 <= year <= 9999 && 1 <= m <= 12 && 1 <= day <= 31
    ensures var k := DateKey(year, m, day);
      && |k| == 8 && IsKey(k) && IsKey(MmddKey(m, day))
      && MmddOf(k) == MmddKey(m, day)
      && DateOf(k) == Some(k)
      && DigitsValue(k[..4]) == year && DigitsValue(k[4..6]) == m && DigitsValue(k[6..]) == day
  {
    DateKeyParts(year, m, day);
    DateKeyValues(year, m, day);
    EightDigitsAreADate(DateKey(year, m, day));
  }

  /** `[...exactHolidays, ...recurringHolidays]` */
  function Combined(h: Holidays, dateKey: string, mmdd: string): seq<Holiday> {
    Get(h, dateKey) + Get(h, mmdd)
  }

  predicate NoDuplicates(s: seq<Holiday>) {
    forall i, j | 0 <= i < j < |s| :: s[i] != s[j]
  }

  /** The first occurrence of each holiday, in order: the corrected de-duplication. */
  function Dedup(s: seq<Holiday>): (r: seq<Holiday>)
    ensures forall x :: x in r <==> x in s
    ensures NoDuplicates(r)
    ensures |r| <= |s|
  {
    if s == [] then []
    else
      var d := Dedup(s[..|s| - 1]);
      assert forall x :: x in s <==> x in s[..|s| - 1] || x == s[|s| - 1];
      if s[|s| - 1] in d then d else d + [s[|s| - 1]]
  }

  /**
   * The result keeps the order of first occurrences: every occurrence in
   * the input of a later result is preceded by an occurrence of each
   * earlier one.
   */
  lemma {:induction false} DedupOrder(s: seq<Holiday>)
    ensures forall i, k, j | 0 <= i < k < |Dedup(s)| && 0 <= j < |s| && s[j] == Dedup(s)[k] :: Dedup(s)[i] in s[..j]
  {
    if s != [] {
      var pre := s[..|s| - 1];
      var x := s[|s| - 1];
      var d := Dedup(pre);
      var r := Dedup(s);
      DedupOrder(pre);
      forall i, k, j | 0 <= i < k < |r| && 0 <= j < |s| && s[j] == r[k]
        ensures r[i] in s[..j]
      {
        assert r[i] == d[i];
        if j < |pre| {
          assert s[..j] == pre[..j];
        } else {
          assert s[..j] == pre;
          assert d[i] in pre;
        }
      }
    }
  }

  /** A list without repetitions passes through unchanged. */
  lemma {:induction false} DedupOfDistinct(s: seq<Holiday>)
    requires NoDuplicates(s)
    ensures Dedup(s) == s
  {
    if s != [] {
      var pre := s[..|s| - 1];
      DedupOfDistinct(pre);
      assert s[|s| - 1] !in pre;
      assert pre + [s[|s| - 1]] == s;
    }
  }

  /** The forEach over the combined list with its `seen` set. */
  method UniqueHolidays(events: seq<Holiday>) returns (unique: seq<Holiday>)
    ensures unique == Dedup(events)
  {
    unique := [];
    var seen: set<Holiday> := {};
    for i := 0 to |events|
      invariant unique == Dedup(events[..i])
      invariant forall x :: x in seen <==> x in unique
    {
      var ev := events[i];
      assert events[..i + 1][..i] == events[..i];
      if ev !in seen {
        seen := seen + {ev};
        unique := unique + [ev];
      }
    }
    assert events[..|events|] == events;
  }

  /** The `seen` key as written: the two texts joined with a bar. */
  function KeyOf(ev: Holiday): string {
    ev.summary + "|" + ev.description
  }

  /** The de-duplication as written, by `KeyOf`. */
  function DedupByKeyAsWritten(s: seq<Holiday>): (r: seq<Holiday>)
    ensures |r| <= |s|
  {
    if s == [] then []
    else
      var d := DedupByKeyAsWritten(s[..|s| - 1]);
      if exists i | 0 <= i < |d| :: KeyOf(d[i]) == KeyOf(s[|s| - 1]) then d else d + [s[|s| - 1]]
  }

  /** Two different holidays with the same key: the written lookup drops the second. */
  lemma BarKeyCollision()
    ensures var a := Holiday("a|b", "c");
            var b := Holiday("a", "b|c");
            && a != b
            && DedupByKeyAsWritten([a, b]) == [a]
            && Dedup([a, b]) == [a, b]
  {
    var a := Holiday("a|b", "c");
    var b := Holiday("a", "b|c");
    assert KeyOf(a) == KeyOf(b);
    assert [a, b][..1] == [a];
    assert [a][..0] == [];
    assert DedupByKeyAsWritten([a]) == [a];
    assert KeyOf([a][0]) == KeyOf([a, b][1]);
    assert a.summary != b.summary;
  }

  /** `changeMonth(delta)` on the pair (month, year), months counted from 0. */
  function Shifted(month: int, year: int, delta: int): (r: (int, int))
    ensures 0 <= r.0 <= 11
    ensures 0 <= month + delta <= 11 ==> r == (month + delta, year)
  {
    var m := month + delta;
    if m > 11 then (0, year + 1)
    else if m < 0 then (11, year - 1)
    else (m, year)
  }

  /**
   * A step of one month either way moves the calendar by exactly one
   * month, across a year boundary too, and the two steps undo each other.
   */
  lemma MonthSteps(month: int, year: int, delta: int)
    requires 0 <= month <= 11 && (delta == 1 || delta == -1)
    ensures Shifted(month, year, delta).1 * 12 + Shifted(month, year, delta).0 == year * 12 + month + delta
    ensures var r := Shifted(month, year, delta); Shifted(r.0, r.1, -delta) == (month, year)
  {
  }

  /** The calendar fields of the client. */
  class Calendar {
    var month: int
    var year: int
    var holidays: Holidays

    predicate Valid()
      reads this
    {
      0 <= month <= 11
    }

    constructor(month: int, year: int)
      requires 0 <= month <= 11
      ensures Valid() && this.month == month && this.year == year && holidays == map[]
    {
      this.month := month;
      this.year := year;
      holidays := map[];
    }

    method ChangeMonth(delta: int)
      modifies this
      ensures (month, year) == Shifted(old(month), old(year), delta)
      ensures Valid()
      ensures holidays == old(holidays)
    {
      month := month + delta;
      if month > 11 {
        month := 0;
        year := year + 1;
      } else if month < 0 {
        month := 11;
        year := year - 1;
      }
    }

    /** `loadHolidays`: the fetched feed, or None when the fetch failed and the error was logged. */
    method LoadHolidays(feed: Option<string>)
      modifies this
      ensures feed.None? ==> holidays == old(holidays)
      ensures feed.Some? ==> holidays == Parse(feed.value)
      ensures forall k | k in holidays && k !in old(holidays) :: IsKey(k)
      ensures month == old(month) && year == old(year)
    {
      if feed.Some? {
        holidays := ParseIcs(feed.value);
      }
    }

    /** The holidays of one day cell: exact-date entries, then yearly ones, each once. */
    method HolidaysFor(dateKey: string, mmdd: string) returns (events: seq<Holiday>)
      ensures events == Dedup(Combined(holidays, dateKey, mmdd))
      ensures forall ev :: ev in events <==> ev in Get(holidays, dateKey) || ev in Get(holidays, mmdd)
    {
      events := UniqueHolidays(Combined(holidays, dateKey, mmdd));
    }
  }
}
