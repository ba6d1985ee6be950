/**
 * The admin calendar: an hour-by-hour grid per field that, unlike the
 * server's slot generator, does continue past midnight, the rule that assigns
 * each hour row to a date, the booking shown in a cell, and the block form.
 *
 * The calendar reads only the hour part of the opening and closing times, so
 * its idea of "crossing midnight" and its date rule are not the server's: the
 * lemmas at the end state where the two differ.
 */
module AdminCalendar {
  import opened Wrappers
  import opened Text
  import opened Seqs
  import opened TimeUtils
  import opened Domain
  import opened Availability
  import opened AdminRoutes

  /** The calendar's test: the closing hour is at or before the opening hour; minutes are ignored, NaN compares false. */
  function CrossesMidnight(openingTime: string, closingTime: string): (r: bool)
    ensures r <==> HourOf(openingTime).Some? && HourOf(closingTime).Some?
                   && HourOf(closingTime).value <= HourOf(openingTime).value
  {
    match (HourOf(openingTime), HourOf(closingTime))
    case (Some(openH), Some(closeH)) => closeH <= openH
    case _ => false
  }

  /** The hour the loop runs up to: the closing hour, or the closing hour of the next day when crossing. */
  function EndHour(openH: nat, closeH: nat): nat
  {
    if closeH <= openH then closeH + 24 else closeH
  }

  /** A row label: the hour modulo 24 as two digits, then ":00". */
  function HourLabel(h: nat): string
  {
    [DigitChar(h % 24 / 10), DigitChar(h % 24 % 10), ':', '0', '0']
  }

  /** The two digits are the hour's decimal text zero-padded to two, as `padStart(2, "0")` writes it. */
  lemma HourLabelPadded(h: nat)
    ensures HourLabel(h) == PadStart2(ShowNat(h % 24)) + ":00"
  {
    PaddedTwoDigits(h % 24);
  }

  /** The labels of hours `h`, `h + 1`, ... up to but excluding `end`. */
  function HoursFrom(h: nat, end: nat): seq<string>
  {
    var n := if h < end then end - h else 0;
    seq(n, k requires 0 <= k < n => HourLabel(h + k))
  }

  /** The calendar rows for a schedule; none when either hour is NaN. */
  function CalendarHours(openingTime: string, closingTime: string): (rows: seq<string>)
    ensures HourOf(openingTime).None? || HourOf(closingTime).None? ==> rows == []
    ensures rows != [] ==> rows[0] == HourLabel(HourOf(openingTime).value)
    ensures HourOf(openingTime).Some? && HourOf(openingTime) == HourOf(closingTime) ==> |rows| == 24
  {
    match (HourOf(openingTime), HourOf(closingTime))
    case (Some(openH), Some(closeH)) => HoursFrom(openH, EndHour(openH, closeH))
    case _ => []
  }

  /** `generateCalendarHours`: counts from the opening hour up to the end hour, pushing one label per hour. */
  method GenerateCalendarHours(openingTime: string, closingTime: string) returns (hours: seq<string>)
    ensures hours == CalendarHours(openingTime, closingTime)
  {
    hours := [];
    var openH := HourOf(openingTime);
    var closeH := HourOf(closingTime);
    if openH.None? || closeH.None? {
      return;
    }
    hours := HoursBetween(openH.value, EndHour(openH.value, closeH.value));
  }

  /** The loop of `generateCalendarHours` once both hours are read. */
  method HoursBetween(openH: nat, end: nat) returns (hours: seq<string>)
    ensures hours == HoursFrom(openH, end)
  {
    hours := [];
    var h := openH;
    while h < end
      invariant hours + HoursFrom(h, end) == HoursFrom(openH, end)
      decreases end as int - h
    {
      HoursFromStep(h, end);
      hours := hours + [HourLabel(h)];
      h := h + 1;
    }
  }

  /** One turn of the loop: the labels from `h` are `h`'s label, then the labels from `h + 1`. */
  lemma HoursFromStep(h: nat, end: nat)
    requires h < end
    ensures HoursFrom(h, end) == [HourLabel(h)] + HoursFrom(h + 1, end)
  {
    var rest := HoursFrom(h + 1, end);
    forall k | 0 < k < end - h
      ensures HoursFrom(h, end)[k] == rest[k - 1]
    {
      assert h + 1 + (k - 1) == h + k;
    }
  }

  lemma HoursFromLength(h: nat, end: nat)
    ensures |HoursFrom(h, end)| == if h < end then end - h else 0
  {
  }

  lemma HoursFromAt(h: nat, end: nat, i: nat)
    requires i < |HoursFrom(h, end)|
    ensures HoursFrom(h, end)[i] == HourLabel(h + i)
  {
  }

  /**
   * One row per hour from the opening hour up to the end hour, the i-th
   * labelled with hour `openH + i` modulo 24.
   */
  lemma CalendarRows(openH: nat, closeH: nat, i: nat)
    ensures |HoursFrom(openH, EndHour(openH, closeH))|
      == if openH < EndHour(openH, closeH) then EndHour(openH, closeH) - openH else 0
    ensures i < |HoursFrom(openH, EndHour(openH, closeH))| ==>
      HoursFrom(openH, EndHour(openH, closeH))[i] == HourLabel(openH + i)
  {
    HoursFromLength(openH, EndHour(openH, closeH));
    if i < |HoursFrom(openH, EndHour(openH, closeH))| {
      HoursFromAt(openH, EndHour(openH, closeH), i);
    }
  }

  /** 06 to 24 gives 18 rows; 16 to 02 crosses midnight and gives 10. */
  lemma CalendarRowExamples()
    ensures |HoursFrom(6, EndHour(6, 24))| == 18
    ensures |HoursFrom(16, EndHour(16, 2))| == 10
  {
    HoursFromLength(6, 24);
    HoursFromLength(16, 26);
  }

  /** Every label reads back as an hour below 24 with zero minutes, so it lies in 00:00..23:00. */
  lemma HourLabelInDay(h: nat)
    ensures ToMinutes(HourLabel(h)) == Some((h % 24) * 60)
    ensures HourOf(HourLabel(h)) == Some(h % 24) && h % 24 < 24
    ensures ParsedHourOf(HourLabel(h)) == Some(h % 24)
  {
    var n := h % 24;
    var a, b := DigitChar(n / 10), DigitChar(n % 10);
    TwoDigitValue(a, b);
    TwoDigitValue('0', '0');
    ToMinutesOfParts([a, b], "00", n, 0);
    assert [a, b] + ":" + "00" == HourLabel(h);
  }

  /**
   * `getDateForHour`: the requested date unless the calendar crosses
   * midnight and the row's hour is strictly before the closing hour.
   */
  function DateForHour(hourLabel: string, crosses: bool, closingTime: string, date: string, next: string): (d: string)
    ensures d == date || d == next
    ensures !crosses ==> d == date
    ensures crosses && HourOf(hourLabel).Some? && HourOf(closingTime).Some? ==>
      d == (if HourOf(hourLabel).value < HourOf(closingTime).value then next else date)
    ensures HourOf(hourLabel).None? || HourOf(closingTime).None? ==> d == date
  {
    if !crosses then date
    else
      match (HourOf(hourLabel), HourOf(closingTime))
      case (Some(h), Some(closeH)) => if h < closeH then next else date
      case _ => date
  }

  /**
   * On a calendar crossing midnight from an opening hour below 24, row `i`
   * is dated the next day exactly when its hour is past midnight, that is
   * when the opening hour plus `i` reaches 24.
   */
  lemma CrossingRowDate(openingTime: string, closingTime: string, openH: nat, closeH: nat, i: nat, date: string, next: string)
    requires HourOf(openingTime) == Some(openH) && HourOf(closingTime) == Some(closeH)
    requires closeH <= openH < 24
    requires i < |CalendarHours(openingTime, closingTime)|
    ensures CrossesMidnight(openingTime, closingTime)
    ensures DateForHour(CalendarHours(openingTime, closingTime)[i], true, closingTime, date, next)
      == if openH + i >= 24 then next else date
  {
    var rows := CalendarHours(openingTime, closingTime);
    assert rows == HoursFrom(openH, closeH + 24);
    CrossingRowHour(openH, closeH, i);
    HourLabelInDay(openH + i);
    RowDateByHour(HourLabel(openH + i), closingTime, openH, closeH, i, date, next);
  }

  lemma CrossingRowHour(openH: nat, closeH: nat, i: nat)
    requires closeH <= openH
    requires i < |HoursFrom(openH, closeH + 24)|
    ensures HoursFrom(openH, closeH + 24)[i] == HourLabel(openH + i)
    ensures openH + i < closeH + 24
  {
    HoursFromLength(openH, closeH + 24);
    HoursFromAt(openH, closeH + 24, i);
  }

  lemma RowDateByHour(rowText: string, closingTime: string, openH: nat, closeH: nat, i: nat, date: string, next: string)
    requires HourOf(rowText) == Some((openH + i) % 24) && HourOf(closingTime) == Some(closeH)
    requires closeH <= openH < 24 && openH + i < closeH + 24
    ensures DateForHour(rowText, true, closingTime, date, next) == if openH + i >= 24 then next else date
  {
    if openH + i >= 24 {
      assert (openH + i) % 24 == openH + i - 24;
    } else {
      assert (openH + i) % 24 == openH + i;
    }
  }

  /** `parseInt(b.endTime...) || 24`: an end hour of 0, or NaN, counts as 24. */
  function EndHourOf(b: Booking): (e: nat)
    ensures e >= 1
    ensures ParsedHourOf(b.endTime).None? || ParsedHourOf(b.endTime) == Some(0) ==> e == 24
  {
    var e := ParsedHourOf(b.endTime);
    if e.Some? && e.value != 0 then e.value else 24
  }

  /** The booking covers the row's hour: its start hour is at most it and its end hour is after it; minutes are ignored. */
  function CoversHour(b: Booking, hourNum: Option<nat>): (r: bool)
    ensures r ==> hourNum.Some? && ParsedHourOf(b.startTime).Some?
    ensures hourNum.Some? && ParsedHourOf(b.startTime) == hourNum ==> (r <==> hourNum.value < EndHourOf(b))
  {
    var startH := ParsedHourOf(b.startTime);
    hourNum.Some? && startH.Some? && startH.value <= hourNum.value < EndHourOf(b)
  }

  /** `getBookingForSlot`: the first loaded booking of the field, on the row's date, covering the row's hour. */
  function BookingForSlot(bookings: seq<Booking>, fieldId: string, hourLabel: string, slotDate: string): (r: Option<Booking>)
    ensures r.Some? ==> r.value in bookings && r.value.fieldId == fieldId && r.value.date == slotDate
                        && CoversHour(r.value, ParsedHourOf(hourLabel))
    ensures r.None? <==> forall b | b in bookings ::
      !(b.fieldId == fieldId && b.date == slotDate && CoversHour(b, ParsedHourOf(hourLabel)))
  {
    Find(bookings, (b: Booking) => b.fieldId == fieldId && b.date == slotDate && CoversHour(b, ParsedHourOf(hourLabel)))
  }

  /** Of several loaded bookings covering a cell, the cell shows the one loaded first. */
  lemma BookingForSlotIsFirst(bookings: seq<Booking>, fieldId: string, hourLabel: string, slotDate: string, i: nat)
    requires i < |bookings|
    requires bookings[i].fieldId == fieldId && bookings[i].date == slotDate
    requires CoversHour(bookings[i], ParsedHourOf(hourLabel))
    requires forall j | 0 <= j < i ::
      !(bookings[j].fieldId == fieldId && bookings[j].date == slotDate && CoversHour(bookings[j], ParsedHourOf(hourLabel)))
    ensures BookingForSlot(bookings, fieldId, hourLabel, slotDate) == Some(bookings[i])
  {
    FindIsFirst(bookings, (b: Booking) => b.fieldId == fieldId && b.date == slotDate && CoversHour(b, ParsedHourOf(hourLabel)), i);
  }

  /** A booking ending at midnight ("00:..") covers the rows up to 23:00 of its start date. */
  lemma MidnightEndCoversLateHours(b: Booking, startH: nat, h: nat)
    requires ParsedHourOf(b.startTime) == Some(startH)
    requires ParsedHourOf(b.endTime) == Some(0)
    requires startH <= h % 24
    ensures CoversHour(b, ParsedHourOf(HourLabel(h)))
  {
    HourLabelInDay(h);
  }

  /**
   * The bookings the calendar keeps from its two admin-list answers: those
   * dated the requested date, then, only when crossing midnight, those dated
   * the next date.
   */
  function CalendarBookings(dayAnswer: seq<Booking>, nextAnswer: seq<Booking>, date: string, next: string, crosses: bool)
    : (kept: seq<Booking>)
    ensures forall b :: b in kept <==>
      (b in dayAnswer && b.date == date) || (crosses && b in nextAnswer && b.date == next)
  {
    Filter(dayAnswer, (b: Booking) => b.date == date)
      + (if crosses then Filter(nextAnswer, (b: Booking) => b.date == next) else [])
  }

  /** `handleBlock`: nothing is sent unless field, start and end are chosen; the reason defaults to "Yopiq". */
  function HandleBlock(blockField: string, blockStart: string, blockEnd: string, blockReason: string, date: string)
    : (body: Option<BlockBody>)
    ensures body.Some? <==> blockField != "" && blockStart != "" && blockEnd != ""
  {
    if blockField == "" || blockStart == "" || blockEnd == "" then None
    else Some(BlockBody(Some(blockField), Some(date), Some(blockStart), Some(blockEnd),
                        Some(if blockReason != "" then blockReason else "Yopiq")))
  }

  /**
   * A request the form sends for a non-empty date passes the route's
   * required-field check, and the stored reason is the typed one or "Yopiq".
   */
  lemma BlockFormRequestIsComplete(blockField: string, blockStart: string, blockEnd: string, blockReason: string,
                                   date: string, id: string)
    requires HandleBlock(blockField, blockStart, blockEnd, blockReason, date).Some?
    requires date != ""
    ensures var body := HandleBlock(blockField, blockStart, blockEnd, blockReason, date).value;
      BlockComplete(body)
      && BlockRecord(body, id).blockReason == Some(if blockReason != "" then blockReason else "Yopiq")
  {
  }

  /**
   * On times whose minutes are zero the calendar and the server agree on
   * whether the schedule crosses midnight.
   */
  lemma CrossingAgreesOnWholeHours(openH: nat, closeH: nat)
    ensures CrossesMidnight(FormatTime(60 * openH), FormatTime(60 * closeH))
      == IsPastMidnight(FormatTime(60 * openH), FormatTime(60 * closeH))
  {
    FormatTimeRoundTrip(60 * openH);
    FormatTimeRoundTrip(60 * closeH);
    assert (60 * openH) / 60 == openH && (60 * closeH) / 60 == closeH;
    CrossingAgreesOnRead(FormatTime(60 * openH), FormatTime(60 * closeH), openH, closeH);
  }

  /** The same on any texts that read as whole hours. */
  lemma CrossingAgreesOnRead(openingTime: string, closingTime: string, openH: nat, closeH: nat)
    requires ToMinutes(openingTime) == Some(60 * openH) && HourOf(openingTime) == Some(openH)
    requires ToMinutes(closingTime) == Some(60 * closeH) && HourOf(closingTime) == Some(closeH)
    ensures CrossesMidnight(openingTime, closingTime) == IsPastMidnight(openingTime, closingTime)
  {
  }

  /**
   * With minutes they can differ: 06:00 to 06:30 crosses midnight for the
   * calendar (same hour) but not for the server (later minute).
   */
  lemma CrossingDisagreesWithinAnHour()
    ensures CrossesMidnight(FormatTime(360), FormatTime(390))
    ensures !IsPastMidnight(FormatTime(360), FormatTime(390))
  {
    FormatTimeRoundTrip(360);
    FormatTimeRoundTrip(390);
    PastMidnightOfMinutes(360, 390);
  }

  /**
   * On a schedule both sides see as crossing, the row of the closing hour is
   * on the requested date for the calendar (strict test) but on the next
   * date for the server (non-strict test).
   */
  lemma ClosingHourRowDates(openingTime: string, closingTime: string, closeH: nat, date: string, next: string)
    requires IsPastMidnight(openingTime, closingTime)
    requires HourOf(closingTime) == Some(closeH) && closeH < 24
    requires date != next
    ensures DateForHour(HourLabel(closeH), true, closingTime, date, next) == date
    ensures IsNextDaySlot(HourLabel(closeH), openingTime, closingTime)
  {
    HourLabelInDay(closeH);
    assert closeH % 24 == closeH;
    NextDaySlotByHour(HourLabel(closeH), openingTime, closingTime, closeH, closeH);
  }
}
