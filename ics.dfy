/**
 * `parseICS` (app.js:2941-3000): the VEVENT blocks (section 3.6.1 of
 * RFC 5545) of an unfolded feed become holidays keyed by their DTSTART
 * date (section 3.8.2.4), and a yearly RRULE (section 3.8.5.3) files the
 * holiday under its month and day as well.
 */
module Ics {
  import opened Wrappers
  import opened Text
  import opened IcsText

  datatype Holiday = Holiday(summary: string, description: string)

  /** The `holidays` dictionary: `YYYYMMDD` and `MMDD` keys to the holidays filed under them. */
  type Holidays = map<string, seq<Holiday>>

  /** `currentEvent` while a VEVENT block is open. */
  datatype Draft = Draft(summary: string, date: string, description: string, isYearly: bool)

  datatype ParseState = ParseState(holidays: Holidays, current: Option<Draft>)

  const EmptyDraft: Draft := Draft("", "", "", false)
  const Initial: ParseState := ParseState(map[], None)

  /** `holidays[key] || []` */
  function Get(h: Holidays, key: string): seq<Holiday> {
    if key in h then h[key] else []
  }

  /** `dateKey.slice(4)` */
  function MmddOf(date: string): (r: string)
    ensures |date| == 8 ==> |r| == 4 && r == date[4..]
    ensures r != date || date == []
  {
    if |date| >= 4 then date[4..] else []
  }

  /**
   * The END:VEVENT branch: a block with a date and a summary is appended
   * to the list under its date, and under its month and day exactly when
   * it is yearly; a block lacking either leaves the dictionary as it was.
   */
  function Closed(h: Holidays, d: Draft): (r: Holidays)
    ensures d.date == "" || d.summary == "" ==> r == h
    ensures d.date != "" && d.summary != "" ==>
      && r.Keys == h.Keys + {d.date} + (if d.isYearly then {MmddOf(d.date)} else {})
      && Get(r, d.date) == Get(h, d.date) + [Holiday(d.summary, d.description)]
      && (d.isYearly ==> Get(r, MmddOf(d.date)) == Get(h, MmddOf(d.date)) + [Holiday(d.summary, d.description)])
      && (!d.isYearly ==> Get(r, MmddOf(d.date)) == Get(h, MmddOf(d.date)))
      && forall k | k != d.date && k != MmddOf(d.date) :: Get(r, k) == Get(h, k)
  {
    if d.date != "" && d.summary != "" then
      var ev := Holiday(d.summary, d.description);
      var dated := h[d.date := Get(h, d.date) + [ev]];
      if d.isYearly then dated[MmddOf(d.date) := Get(dated, MmddOf(d.date)) + [ev]] else dated
    else h
  }

  /** One `NAME;PARAMS:value` line inside a block: the property it names updates the draft. */
  function Property(d: Draft, prop: string, value: string): (r: Draft)
    ensures StartsWith(prop, "DTSTART") ==> r == (match DateOf(value) case Some(date) => d.(date := date) case None => d)
    ensures !StartsWith(prop, "DTSTART") && StartsWith(prop, "RRULE") ==> r == d.(isYearly := d.isYearly || Includes(value, "FREQ=YEARLY"))
    ensures r.summary == d.summary || (StartsWith(prop, "SUMMARY") && r.summary == CleanValue(value))
    ensures r.description == d.description || (StartsWith(prop, "DESCRIPTION") && r.description == CleanValue(value))
    ensures !StartsWith(prop, "DTSTART") && !StartsWith(prop, "RRULE") && StartsWith(prop, "SUMMARY")
      ==> r == d.(summary := CleanValue(value))
    ensures !StartsWith(prop, "DTSTART") && !StartsWith(prop, "RRULE") && !StartsWith(prop, "SUMMARY") && StartsWith(prop, "DESCRIPTION")
      ==> r == d.(description := CleanValue(value))
    ensures !StartsWith(prop, "DTSTART") && !StartsWith(prop, "RRULE") && !StartsWith(prop, "SUMMARY") && !StartsWith(prop, "DESCRIPTION")
      ==> r == d
  {
    if StartsWith(prop, "DTSTART") then
      match DateOf(value)
      case Some(date) => d.(date := date)
      case None => d
    else if StartsWith(prop, "RRULE") then
      if Includes(value, "FREQ=YEARLY") then d.(isYearly := true) else d
    else if StartsWith(prop, "SUMMARY") then d.(summary := CleanValue(value))
    else if StartsWith(prop, "DESCRIPTION") then d.(description := CleanValue(value))
    else d
  }

  /** The body of the `lines.forEach` callback. */
  function Step(st: ParseState, line: string): ParseState {
    if StartsWith(line, "BEGIN:VEVENT") then st.(current := Some(EmptyDraft))
    else if StartsWith(line, "END:VEVENT") then
      ParseState(if st.current.Some? then Closed(st.holidays, st.current.value) else st.holidays, None)
    else if st.current.None? then st
    else st.(current := Some(ReadLine(st.current.value, line)))
  }

  /** A line inside a block: split at its first colon into property and value; a line without one is skipped. */
  function ReadLine(d: Draft, line: string): Draft {
    match IndexOf(line, ":")
    case None => d
    case Some(c) => Property(d, line[..c], line[c + 1..])
  }

  /** The state after the callback has seen `lines` in order. */
  function Run(lines: seq<string>): ParseState {
    if lines == [] then Initial else Step(Run(lines[..|lines| - 1]), lines[|lines| - 1])
  }

  /** `parseICS(data)` as a value. */
  function Parse(data: string): Holidays {
    Run(SplitLines(Unfold(data))).holidays
  }

  /** Lines outside a block, and lines without a colon inside one, change nothing. */
  lemma IgnoredLines(st: ParseState, line: string)
    requires !StartsWith(line, "BEGIN:VEVENT") && !StartsWith(line, "END:VEVENT")
    ensures st.current.None? ==> Step(st, line) == st
    ensures ':' !in line ==> Step(st, line) == st
  {
    if ':' !in line && st.current.Some? {
      IncludesChar(line, ':');
    }
  }

  /** A line closing a block files the finished draft (see `Closed`) and closes the block. */
  lemma EndOfBlock(st: ParseState, line: string)
    requires StartsWith(line, "END:VEVENT") && !StartsWith(line, "BEGIN:VEVENT")
    ensures Step(st, line).current.None?
    ensures st.current.None? ==> Step(st, line).holidays == st.holidays
    ensures st.current.Some? ==> Step(st, line).holidays == Closed(st.holidays, st.current.value)
  {
  }

  /** A key the parser files under: eight digits (a date) or four (a month and day). */
  predicate IsKey(k: string) {
    AllDigits(k) && (|k| == 8 || |k| == 4)
  }

  /** A filed holiday always has a summary, and both texts are trimmed. */
  predicate IsFiled(ev: Holiday) {
    ev.summary != "" && Trim(ev.summary) == ev.summary && Trim(ev.description) == ev.description
  }

  predicate AllFiled(evs: seq<Holiday>) {
    forall i | 0 <= i < |evs| :: IsFiled(evs[i])
  }

  predicate ShapedDraft(d: Draft) {
    && (d.date == "" || (|d.date| == 8 && AllDigits(d.date)))
    && Trim(d.summary) == d.summary && Trim(d.description) == d.description
  }

  predicate ShapedHolidays(h: Holidays) {
    forall k | k in h :: IsKey(k) && AllFiled(h[k])
  }

  predicate WellFormed(st: ParseState) {
    ShapedHolidays(st.holidays) && (st.current.Some? ==> ShapedDraft(st.current.value))
  }

  lemma PropertyKeepsShape(d: Draft, prop: string, value: string)
    requires ShapedDraft(d)
    ensures ShapedDraft(Property(d, prop, value))
  {
  }

  lemma ClosedKeepsShape(h: Holidays, d: Draft)
    requires ShapedHolidays(h) && ShapedDraft(d)
    ensures ShapedHolidays(Closed(h, d))
  {
    var r := Closed(h, d);
    if d.date != "" && d.summary != "" {
      var ev := Holiday(d.summary, d.description);
      var mmdd := MmddOf(d.date);
      assert IsKey(mmdd) by {
        assert forall i | 0 <= i < 4 :: mmdd[i] == d.date[i + 4];
      }
      assert AllFiled(Get(h, d.date) + [ev]);
      assert AllFiled(Get(h, mmdd) + [ev]);
      forall k | k in r
        ensures IsKey(k) && AllFiled(r[k])
      {
        assert r[k] == Get(r, k);
        assert AllFiled(Get(h, k));
      }
    }
  }

  lemma EmptyDraftShaped()
    ensures ShapedDraft(EmptyDraft)
  {
    TrimOfTrimmed("");
  }

  lemma StepKeepsShape(st: ParseState, line: string)
    requires WellFormed(st)
    ensures WellFormed(Step(st, line))
  {
    if StartsWith(line, "BEGIN:VEVENT") {
      EmptyDraftShaped();
    } else if StartsWith(line, "END:VEVENT") {
      EndKeepsShape(st, line);
    } else {
      PropertyLineKeepsShape(st, line);
    }
  }

  lemma EndKeepsShape(st: ParseState, line: string)
    requires WellFormed(st)
    requires !StartsWith(line, "BEGIN:VEVENT") && StartsWith(line, "END:VEVENT")
    ensures WellFormed(Step(st, line))
  {
    if st.current.Some? {
      ClosedKeepsShape(st.holidays, st.current.value);
    }
  }

  lemma PropertyLineKeepsShape(st: ParseState, line: string)
    requires WellFormed(st)
    requires !StartsWith(line, "BEGIN:VEVENT") && !StartsWith(line, "END:VEVENT")
    ensures WellFormed(Step(st, line))
  {
    if st.current.Some? {
      ReadLineKeepsShape(st.current.value, line);
    }
  }

  lemma ReadLineKeepsShape(d: Draft, line: string)
    requires ShapedDraft(d)
    ensures ShapedDraft(ReadLine(d, line))
  {
    match IndexOf(line, ":")
    case None =>
    case Some(c) => PropertyKeepsShape(d, line[..c], line[c + 1..]);
  }

  /**
   * Whatever the feed, every key of the parsed dictionary is eight or four
   * digits and every holiday filed has a summary, both texts trimmed.
   */
  lemma {:induction false} RunWellFormed(lines: seq<string>)
    ensures WellFormed(Run(lines))
  {
    if lines != [] {
      RunWellFormed(lines[..|lines| - 1]);
      StepKeepsShape(Run(lines[..|lines| - 1]), lines[|lines| - 1]);
    }
  }

  lemma ParsedKeys(data: string)
    ensures forall k | k in Parse(data) :: IsKey(k)
    ensures forall k | k in Parse(data) :: AllFiled(Parse(data)[k])
  {
    RunWellFormed(SplitLines(Unfold(data)));
  }

  /** The pushes of the END:VEVENT branch. */
  method FileHoliday(holidays: Holidays, d: Draft) returns (r: Holidays)
    ensures r == Closed(holidays, d)
  {
    r := holidays;
    if d.date != "" && d.summary != "" {
      var ev := Holiday(d.summary, d.description);
      var dateKey := d.date;
      if dateKey !in r {
        r := r[dateKey := []];
      }
      r := r[dateKey := r[dateKey] + [ev]];
      if d.isYearly {
        var mmdd := MmddOf(dateKey);
        if mmdd !in r {
          r := r[mmdd := []];
        }
        r := r[mmdd := r[mmdd] + [ev]];
      }
    }
  }

  /** The property branches of the callback. */
  method ReadProperty(d: Draft, line: string) returns (r: Draft)
    ensures r == ReadLine(d, line)
  {
    r := d;
    var colon := IndexOf(line, ":");
    if colon.None? {
      return;
    }
    var prop := line[..colon.value];
    var value := line[colon.value + 1..];
    if StartsWith(prop, "DTSTART") {
      var date := DateOf(value);
      if date.Some? {
        r := r.(date := date.value);
      }
    } else if StartsWith(prop, "RRULE") {
      if Includes(value, "FREQ=YEARLY") {
        r := r.(isYearly := true);
      }
    } else if StartsWith(prop, "SUMMARY") {
      r := r.(summary := CleanValue(value));
    } else if StartsWith(prop, "DESCRIPTION") {
      r := r.(description := CleanValue(value));
    }
  }

  /** `parseICS` itself: the lines of the unfolded feed in order, updating `currentEvent` and `holidays`. */
  method ParseIcs(data: string) returns (holidays: Holidays)
    ensures holidays == Parse(data)
    ensures forall k | k in holidays :: IsKey(k) && AllFiled(holidays[k])
  {
    var lines := SplitLines(Unfold(data));
    holidays := map[];
    var current: Option<Draft> := None;
    for i := 0 to |lines|
      invariant ParseState(holidays, current) == Run(lines[..i])
    {
      var line := lines[i];
      assert lines[..i + 1][..i] == lines[..i];
      if StartsWith(line, "BEGIN:VEVENT") {
        current := Some(EmptyDraft);
      } else if StartsWith(line, "END:VEVENT") {
        if current.Some? {
          holidays := FileHoliday(holidays, current.value);
        }
        current := None;
      } else if current.Some? {
        var d := ReadProperty(current.value, line);
        current := Some(d);
      }
    }
    assert lines[..|lines|] == lines;
    RunWellFormed(lines);
  }
}
