/**
 * The time arithmetic shared by the server and the pages: "HH:MM" text to
 * minutes of the day and back, the fixed-step slot generator, the half-open
 * interval overlap test, and the phone-number validator.
 *
 * Minutes are raw offsets from midnight: nothing here wraps past midnight, so
 * "24:00" is minute 1440 and a closing time at or before the opening time
 * yields no slots.
 */
module TimeUtils {
  import opened Wrappers
  import opened Text

  /** A bookable interval as the server sends it: start and end as "HH:MM" text. */
  datatype TimeSlot = TimeSlot(start: string, end: string)

  /** `const [h, m] = t.split(":").map(Number); return h * 60 + m;` with None standing for NaN. */
  function ToMinutes(t: string): (r: Option<nat>)
    ensures HourOf(t).None? ==> r.None?
    ensures r.Some? ==> 60 * HourOf(t).value <= r.value
  {
    var parts := Split(t, ':');
    var h := NumberValue(parts[0]);
    var m := if |parts| > 1 then NumberValue(parts[1]) else None;
    if h.Some? && m.Some? then Some(h.value * 60 + m.value) else None
  }

  /** `const [h] = t.split(":").map(Number)`: the hour part alone. */
  function HourOf(t: string): Option<nat>
  {
    NumberValue(Split(t, ':')[0])
  }

  /** `parseInt(t.split(":")[0])`: the hour part as `parseInt` reads it. */
  function ParsedHourOf(t: string): Option<nat>
  {
    ParseIntValue(Split(t, ':')[0])
  }

  /** A minute offset as zero-padded "HH:MM"; the hour is not reduced modulo 24. */
  function FormatTime(minutes: nat): string
  {
    PadStart2(ShowNat(minutes / 60)) + ":" + PadStart2(ShowNat(minutes % 60))
  }

  lemma PaddedDigits(n: nat)
    ensures AllDigits(PadStart2(ShowNat(n))) && PadStart2(ShowNat(n)) != []
    ensures DigitsValue(PadStart2(ShowNat(n))) == n
    ensures ':' !in PadStart2(ShowNat(n))
  {
    ShowNatRoundTrip(n);
    PadStart2Value(ShowNat(n));
  }

  /** Two runs of digits joined by a colon split into exactly those two runs. */
  lemma SplitClockText(hours: string, minutes: string)
    requires AllDigits(hours) && AllDigits(minutes)
    ensures Split(hours + ":" + minutes, ':') == [hours, minutes]
  {
    assert ':' !in hours && ':' !in minutes;
    assert hours + ":" + minutes == hours + [':'] + minutes;
    SplitAtFirstSeparator(hours, ':', minutes);
    SplitWithoutSeparator(minutes, ':');
  }

  /** Two runs of digits joined by a colon read as hours and minutes, and as that hour by either parser. */
  lemma ToMinutesOfParts(hours: string, minutes: string, h: nat, m: nat)
    requires hours != [] && AllDigits(hours) && DigitsValue(hours) == h
    requires AllDigits(minutes) && DigitsValue(minutes) == m
    ensures ToMinutes(hours + ":" + minutes) == Some(h * 60 + m)
    ensures HourOf(hours + ":" + minutes) == Some(h)
    ensures ParsedHourOf(hours + ":" + minutes) == Some(h)
  {
    SplitClockText(hours, minutes);
    ParseIntOfDigits(hours);
  }

  /** Formatting a minute offset and reading it back gives the same offset, and the same hour by either parser. */
  lemma FormatTimeRoundTrip(minutes: nat)
    ensures ToMinutes(FormatTime(minutes)) == Some(minutes)
    ensures HourOf(FormatTime(minutes)) == Some(minutes / 60)
    ensures ParsedHourOf(FormatTime(minutes)) == Some(minutes / 60)
  {
    var h, m := minutes / 60, minutes % 60;
    var a, b := PadStart2(ShowNat(h)), PadStart2(ShowNat(m));
    PaddedDigits(h);
    PaddedDigits(m);
    ToMinutesOfParts(a, b, h, m);
    assert FormatTime(minutes) == a + ":" + b;
    assert h * 60 + m == minutes;
  }

  /** A slot's bounds in minutes from midnight, before they are rendered as text. */
  datatype Span = Span(start: nat, end: nat)

  function Render(span: Span): TimeSlot
  {
    TimeSlot(FormatTime(span.start), FormatTime(span.end))
  }

  function RenderAll(spans: seq<Span>): (slots: seq<TimeSlot>)
    ensures |slots| == |spans|
    ensures forall i :: 0 <= i < |spans| ==> slots[i] == Render(spans[i])
  {
    seq(|spans|, i requires 0 <= i < |spans| => Render(spans[i]))
  }

  lemma RenderAllAppend(spans: seq<Span>, span: Span)
    ensures RenderAll(spans + [span]) == RenderAll(spans) + [Render(span)]
  {
    var a, b := RenderAll(spans + [span]), RenderAll(spans) + [Render(span)];
    forall i | 0 <= i < |a| ensures a[i] == b[i] {
      if i < |spans| { assert (spans + [span])[i] == spans[i]; }
    }
  }

  lemma SpansFromStep(current: nat, end: nat, duration: nat)
    requires duration > 0 && current + duration <= end
    ensures SpansFrom(current, end, duration) == [Span(current, current + duration)] + SpansFrom(current + duration, end, duration)
  {
  }

  /** The bounds the generator's loop visits from minute `current` until the next slot would end after `end`. */
  function SpansFrom(current: nat, end: nat, duration: nat): seq<Span>
    requires duration > 0
    decreases end - current
  {
    if current + duration <= end
    then [Span(current, current + duration)] + SpansFrom(current + duration, end, duration)
    else []
  }

  /** How many times the generator's loop runs from minute `current`: one per whole slot that still ends by `end`. */
  function SlotCount(current: nat, end: nat, duration: nat): nat
    requires duration > 0
    decreases end - current
  {
    if current + duration <= end then 1 + SlotCount(current + duration, end, duration) else 0
  }

  /** With the one-hour step the server uses, the count is (closing - opening) div 60, and zero when closing is not after opening. */
  lemma {:induction false} HourlySlotCount(current: nat, end: nat)
    ensures SlotCount(current, end, 60) == if end >= current then (end - current) / 60 else 0
    decreases end - current
  {
    if current + 60 <= end {
      HourlySlotCount(current + 60, end);
    }
  }

  /** A quotient is the only multiplier that leaves a remainder below the divisor. */
  lemma DivUnique(x: nat, d: nat, q: nat, r: nat)
    requires d > 0 && r < d && x == q * d + r
    ensures x / d == q
  {
    var q', r' := x / d, x % d;
    if q' > q {
      MulAtLeastOnce(q' - q, d);
    } else if q' < q {
      MulAtLeastOnce(q - q', d);
    }
  }

  lemma MulAtLeastOnce(a: nat, d: nat)
    requires a >= 1
    ensures a * d >= d
  {
    assert a * d == (a - 1) * d + d;
  }

  /** Taking one more step off the dividend takes one off the quotient. */
  lemma DivStep(x: nat, d: nat)
    requires d > 0 && x >= d
    ensures x / d == (x - d) / d + 1
  {
    var q, r := (x - d) / d, (x - d) % d;
    assert x == (q + 1) * d + r;
    DivUnique(x, d, q + 1, r);
  }

  /** The loop runs (end - current) div duration times, and not at all when end is before current. */
  lemma {:induction false} SlotCountClosedForm(current: nat, end: nat, duration: nat)
    requires duration > 0
    ensures SlotCount(current, end, duration) == if end >= current then (end - current) / duration else 0
    decreases end - current
  {
    if current + duration <= end {
      SlotCountClosedForm(current + duration, end, duration);
      DivStep(end - current, duration);
    } else if end >= current {
      DivUnique(end - current, duration, 0, end - current);
    }
  }

  lemma StepProduct(i: nat, duration: nat)
    requires i > 0
    ensures (i - 1) * duration + duration == i * duration
  {
  }

  lemma {:induction false} SpansFromLength(current: nat, end: nat, duration: nat)
    requires duration > 0
    ensures |SpansFrom(current, end, duration)| == SlotCount(current, end, duration)
    decreases end - current
  {
    if current + duration <= end {
      SpansFromLength(current + duration, end, duration);
    }
  }

  lemma {:induction false} SpansFromAt(current: nat, end: nat, duration: nat, i: nat)
    requires duration > 0 && i < |SpansFrom(current, end, duration)|
    ensures SpansFrom(current, end, duration)[i] == Span(current + i * duration, current + i * duration + duration)
    ensures current + i * duration + duration <= end
    decreases i
  {
    if i > 0 {
      SpansFromAt(current + duration, end, duration, i - 1);
      StepProduct(i, duration);
    }
  }

  lemma SpansFromMeet(current: nat, end: nat, duration: nat, i: nat)
    requires duration > 0 && 0 < i < |SpansFrom(current, end, duration)|
    ensures SpansFrom(current, end, duration)[i].start == SpansFrom(current, end, duration)[i - 1].end
  {
    SpansFromAt(current, end, duration, i);
    SpansFromAt(current, end, duration, i - 1);
    StepProduct(i, duration);
  }

  /**
   * `generateTimeSlots(openingTime, closingTime, duration)` as a value: the
   * slots from opening until the next would end after closing. An unreadable
   * time is NaN, which fails the loop test at once.
   */
  function TimeSlots(openingTime: string, closingTime: string, duration: nat): (slots: seq<TimeSlot>)
    requires duration > 0
    ensures ToMinutes(openingTime).None? || ToMinutes(closingTime).None? ==> slots == []
    ensures slots != [] ==> ToMinutes(slots[0].start) == ToMinutes(openingTime)
  {
    match (ToMinutes(openingTime), ToMinutes(closingTime))
    case (Some(open), Some(close)) =>
      var spans := SpansFrom(open, close, duration);
      if spans == [] then []
      else
        RenderedSpanAt(open, close, duration, 0);
        RenderAll(spans)
    case _ => []
  }

  /**
   * `generateTimeSlots`: read opening and closing as minutes, then run the
   * stepping loop between them. NaN on either side ends the loop before it
   * starts.
   */
  method GenerateTimeSlots(openingTime: string, closingTime: string, duration: nat) returns (slots: seq<TimeSlot>)
    requires duration > 0
    ensures slots == TimeSlots(openingTime, closingTime, duration)
  {
    slots := [];
    var open := ToMinutes(openingTime);
    var close := ToMinutes(closingTime);
    if open.None? || close.None? {
      return;
    }
    slots := SlotsBetween(open.value, close.value, duration);
  }

  /**
   * The generator's loop: from minute `open`, emit one slot per step of
   * `duration` minutes while the slot still ends by `end`.
   */
  method SlotsBetween(open: nat, end: nat, duration: nat) returns (slots: seq<TimeSlot>)
    requires duration > 0
    ensures slots == RenderAll(SpansFrom(open, end, duration))
  {
    slots := [];
    var current := open;
    ghost var done: seq<Span> := [];
    while current + duration <= end
      invariant done + SpansFrom(current, end, duration) == SpansFrom(open, end, duration)
      invariant slots == RenderAll(done)
      decreases end - current
    {
      var span := Span(current, current + duration);
      SlotsBetweenStep(open, current, end, duration, done, slots);
      slots := slots + [Render(span)];
      done := done + [span];
      current := current + duration;
    }
  }

  /** One turn of the generator's loop keeps both of its invariants. */
  lemma SlotsBetweenStep(open: nat, current: nat, end: nat, duration: nat, done: seq<Span>, slots: seq<TimeSlot>)
    requires duration > 0 && current + duration <= end
    requires done + SpansFrom(current, end, duration) == SpansFrom(open, end, duration)
    requires slots == RenderAll(done)
    ensures (done + [Span(current, current + duration)]) + SpansFrom(current + duration, end, duration) == SpansFrom(open, end, duration)
    ensures slots + [Render(Span(current, current + duration))] == RenderAll(done + [Span(current, current + duration)])
  {
    var span := Span(current, current + duration);
    SpansFromStep(current, end, duration);
    assert (done + [span]) + SpansFrom(current + duration, end, duration) == done + SpansFrom(current, end, duration);
    RenderAllAppend(done, span);
  }

  /**
   * The number of generated slots: one per loop step, which is
   * (closing - opening) div duration; none when closing is not after opening.
   */
  lemma TimeSlotsCount(openingTime: string, closingTime: string, duration: nat, open: nat, close: nat)
    requires duration > 0
    requires ToMinutes(openingTime) == Some(open) && ToMinutes(closingTime) == Some(close)
    ensures |TimeSlots(openingTime, closingTime, duration)| == SlotCount(open, close, duration)
    ensures |TimeSlots(openingTime, closingTime, duration)| == if close >= open then (close - open) / duration else 0
    ensures close <= open ==> TimeSlots(openingTime, closingTime, duration) == []
  {
    SpansFromLength(open, close, duration);
    SlotCountClosedForm(open, close, duration);
  }

  /** A rendered span reads back as the same minutes. */
  lemma RenderRoundTrip(span: Span)
    ensures ToMinutes(Render(span).start) == Some(span.start)
    ensures ToMinutes(Render(span).end) == Some(span.end)
  {
    FormatTimeRoundTrip(span.start);
    FormatTimeRoundTrip(span.end);
  }

  /** Slot `i` of the rendered spans from `open`, in minutes. */
  lemma {:induction false} RenderedSpanAt(open: nat, close: nat, duration: nat, i: nat)
    requires duration > 0 && i < |SpansFrom(open, close, duration)|
    ensures var slot := RenderAll(SpansFrom(open, close, duration))[i];
      && ToMinutes(slot.start) == Some(open + i * duration)
      && ToMinutes(slot.end) == Some(open + i * duration + duration)
    ensures open + i * duration + duration <= close
  {
    var spans := SpansFrom(open, close, duration);
    var start := open + i * duration;
    assert spans[i] == Span(start, start + duration) && start + duration <= close by {
      SpansFromAt(open, close, duration, i);
    }
    RenderedReadsBack(spans, i, start, start + duration);
  }

  /** Rendered slot `i` of any spans reads back as span `i`'s minutes. */
  lemma RenderedReadsBack(spans: seq<Span>, i: nat, start: nat, end: nat)
    requires i < |spans| && spans[i] == Span(start, end)
    ensures ToMinutes(RenderAll(spans)[i].start) == Some(start)
    ensures ToMinutes(RenderAll(spans)[i].end) == Some(end)
  {
    RenderRoundTrip(spans[i]);
  }

  /** Consecutive rendered spans meet: slot `i` starts where slot `i - 1` ended. */
  lemma RenderedSpansMeet(open: nat, close: nat, duration: nat, i: nat)
    requires duration > 0 && 0 < i < |SpansFrom(open, close, duration)|
    ensures RenderAll(SpansFrom(open, close, duration))[i].start == RenderAll(SpansFrom(open, close, duration))[i - 1].end
  {
    SpansFromMeet(open, close, duration, i);
  }

  /**
   * Slot `i` of the generated list starts `i` steps after opening, lasts
   * exactly `duration` minutes, ends by closing, and starts where slot `i - 1`
   * ended.
   */
  lemma TimeSlotAt(openingTime: string, closingTime: string, duration: nat, open: nat, close: nat, i: nat)
    requires duration > 0
    requires ToMinutes(openingTime) == Some(open) && ToMinutes(closingTime) == Some(close)
    requires i < |TimeSlots(openingTime, closingTime, duration)|
    ensures ToMinutes(TimeSlots(openingTime, closingTime, duration)[i].start) == Some(open + i * duration)
    ensures ToMinutes(TimeSlots(openingTime, closingTime, duration)[i].end) == Some(open + i * duration + duration)
    ensures open + i * duration + duration <= close
    ensures i > 0 ==> TimeSlots(openingTime, closingTime, duration)[i].start == TimeSlots(openingTime, closingTime, duration)[i - 1].end
  {
    assert TimeSlots(openingTime, closingTime, duration) == RenderAll(SpansFrom(open, close, duration));
    RenderedSpanAt(open, close, duration, i);
    if i > 0 {
      RenderedSpansMeet(open, close, duration, i);
    }
  }

  /** Two digit characters read as a two-digit number. */
  lemma TwoDigitValue(a: char, b: char)
    requires IsDigit(a) && IsDigit(b)
    ensures AllDigits([a, b]) && DigitsValue([a, b]) == (a as int - '0' as int) * 10 + (b as int - '0' as int)
  {
    assert [a, b][..1] == [a];
    assert [a][..0] == [];
    assert DigitsValue([a]) == a as int - '0' as int;
  }

  /** Two digits, a colon and two digits read as that many hours and minutes. */
  lemma ClockTextValue(h1: char, h2: char, m1: char, m2: char)
    requires IsDigit(h1) && IsDigit(h2) && IsDigit(m1) && IsDigit(m2)
    ensures ToMinutes([h1, h2, ':', m1, m2]) == Some(DigitsValue([h1, h2]) * 60 + DigitsValue([m1, m2]))
  {
    TwoDigitValue(h1, h2);
    TwoDigitValue(m1, m2);
    ToMinutesOfParts([h1, h2], [m1, m2], DigitsValue([h1, h2]), DigitsValue([m1, m2]));
    assert [h1, h2] + ":" + [m1, m2] == [h1, h2, ':', m1, m2];
  }

  /** The default opening and closing times read as minutes 360 and 1440. */
  lemma DefaultTimes()
    ensures ToMinutes("06:00") == Some(360) && ToMinutes("24:00") == Some(1440)
  {
    ClockTextValue('0', '6', '0', '0');
    TwoDigitValue('0', '6');
    TwoDigitValue('0', '0');
    ClockTextValue('2', '4', '0', '0');
    TwoDigitValue('2', '4');
  }

  /** A whole hour from 10 to 99 formats as its two digits and ":00". */
  lemma WholeHourText(h: nat)
    requires 10 <= h < 100
    ensures FormatTime(60 * h) == [DigitChar(h / 10), DigitChar(h % 10), ':', '0', '0']
  {
    assert ShowNat(h / 10) == [DigitChar(h / 10)];
    assert ShowNat(h) == [DigitChar(h / 10), DigitChar(h % 10)];
    assert (60 * h) / 60 == h && (60 * h) % 60 == 0;
    assert ShowNat(0) == ['0'];
  }

  /** The last default slot's bounds as text. */
  lemma LastDefaultSlotText()
    ensures FormatTime(1380) == "23:00" && FormatTime(1440) == "24:00"
  {
    WholeHourText(23);
    WholeHourText(24);
  }

  /** The generated slots are the rendered spans of the opening and closing minutes. */
  lemma TimeSlotsOfMinutes(openingTime: string, closingTime: string, duration: nat, open: nat, close: nat)
    requires duration > 0
    requires ToMinutes(openingTime) == Some(open) && ToMinutes(closingTime) == Some(close)
    ensures TimeSlots(openingTime, closingTime, duration) == RenderAll(SpansFrom(open, close, duration))
  {
  }

  /** A schedule of exactly `n` hours has `n` one-hour spans, the last ending at closing. */
  lemma HourlySpansLast(open: nat, close: nat, n: nat)
    requires open + 60 * n == close && n > 0
    ensures |SpansFrom(open, close, 60)| == n
    ensures SpansFrom(open, close, 60)[n - 1] == Span(close - 60, close)
  {
    SpansFromLength(open, close, 60);
    HourlySlotCount(open, close);
    SpansFromAt(open, close, 60, n - 1);
  }

  /** A schedule of exactly `n` hours has `n` one-hour slots, the last one the hour before closing. */
  lemma HourlyScheduleLastSlot(openingTime: string, closingTime: string, open: nat, close: nat, n: nat)
    requires ToMinutes(openingTime) == Some(open) && ToMinutes(closingTime) == Some(close)
    requires open + 60 * n == close && n > 0
    ensures |TimeSlots(openingTime, closingTime, 60)| == n
    ensures TimeSlots(openingTime, closingTime, 60)[n - 1] == Render(Span(close - 60, close))
  {
    TimeSlotsOfMinutes(openingTime, closingTime, 60, open, close);
    HourlySpansLast(open, close, n);
  }

  /**
   * The default schedule, read as minutes 360 to 1440 (as "06:00" and
   * "24:00" are), has eighteen one-hour slots, the last one 23:00 to 24:00.
   */
  lemma DefaultScheduleSlots(openingTime: string, closingTime: string)
    requires ToMinutes(openingTime) == Some(360) && ToMinutes(closingTime) == Some(1440)
    ensures |TimeSlots(openingTime, closingTime, 60)| == 18
    ensures TimeSlots(openingTime, closingTime, 60)[17] == TimeSlot("23:00", "24:00")
  {
    HourlyScheduleLastSlot(openingTime, closingTime, 360, 1440, 18);
    LastDefaultSlotText();
  }

  /**
   * `isTimeOverlap(s1, e1, s2, e2)`: the half-open intervals [s1, e1) and
   * [s2, e2) share a minute. Comparisons with NaN are false, so an unreadable
   * time never overlaps anything.
   */
  function IsTimeOverlap(start1: string, end1: string, start2: string, end2: string): (r: bool)
    ensures r ==> ToMinutes(start1).Some? && ToMinutes(end1).Some? && ToMinutes(start2).Some? && ToMinutes(end2).Some?
    ensures ToMinutes(start1).Some? && ToMinutes(end1).Some? && ToMinutes(start2).Some? && ToMinutes(end2).Some?
            && ToMinutes(start1).value < ToMinutes(end1).value && ToMinutes(start2).value < ToMinutes(end2).value ==>
      var latestStart := if ToMinutes(start1).value < ToMinutes(start2).value then ToMinutes(start2).value else ToMinutes(start1).value;
      var earliestEnd := if ToMinutes(end1).value < ToMinutes(end2).value then ToMinutes(end1).value else ToMinutes(end2).value;
      (r <==> latestStart < earliestEnd)
  {
    match (ToMinutes(start1), ToMinutes(end1), ToMinutes(start2), ToMinutes(end2))
    case (Some(s1), Some(e1), Some(s2), Some(e2)) => s1 < e2 && s2 < e1
    case _ => false
  }

  /** Overlap does not depend on which interval is named first. */
  lemma OverlapSymmetric(start1: string, end1: string, start2: string, end2: string)
    ensures IsTimeOverlap(start1, end1, start2, end2) == IsTimeOverlap(start2, end2, start1, end1)
  {
  }

  /** On formatted times, overlap is exactly the minute test: a start before the other's end, both ways. */
  lemma OverlapOfMinutes(s1: nat, e1: nat, s2: nat, e2: nat)
    ensures IsTimeOverlap(FormatTime(s1), FormatTime(e1), FormatTime(s2), FormatTime(e2)) <==> s1 < e2 && s2 < e1
  {
    FormatTimeRoundTrip(s1);
    FormatTimeRoundTrip(e1);
    FormatTimeRoundTrip(s2);
    FormatTimeRoundTrip(e2);
  }

  /** A non-empty interval overlaps itself. */
  lemma SelfOverlap(start: string, end: string)
    requires ToMinutes(start).Some? && ToMinutes(end).Some?
    requires ToMinutes(start).value < ToMinutes(end).value
    ensures IsTimeOverlap(start, end, start, end)
  {
  }

  /** Intervals that only touch, one ending where the other starts, do not overlap. */
  lemma TouchingIntervalsDoNotOverlap(a: nat, b: nat, c: nat)
    ensures !IsTimeOverlap(FormatTime(a), FormatTime(b), FormatTime(b), FormatTime(c))
  {
    OverlapOfMinutes(a, b, b, c);
  }

  /** The JavaScript `\s` class: ASCII blanks and the Unicode space separators. */
  predicate IsJsSpace(c: char)
  {
    var n := c as int;
    || (9 <= n <= 13) || n == 32 || n == 0xA0 || n == 0x1680 || (0x2000 <= n <= 0x200A)
    || n == 0x2028 || n == 0x2029 || n == 0x202F || n == 0x205F || n == 0x3000 || n == 0xFEFF
  }

  predicate IsPhoneSeparator(c: char)
  {
    IsJsSpace(c) || c == '-' || c == '(' || c == ')'
  }

  /** `phone.replace(/[\s\-\(\)]/g, "")`: the phone text with blanks, hyphens and parentheses deleted. */
  function CleanPhone(phone: string): (r: string)
    ensures |r| <= |phone|
    ensures forall i :: 0 <= i < |r| ==> !IsPhoneSeparator(r[i]) && r[i] in phone
  {
    if phone == [] then []
    else (if IsPhoneSeparator(phone[0]) then [] else [phone[0]]) + CleanPhone(phone[1..])
  }

  /** `/^(\+998|998)?[0-9]{9}$/`: nine digits, optionally preceded by the country code 998 or +998. */
  predicate MatchesPhonePattern(s: string)
  {
    || (|s| == 9 && AllDigits(s))
    || (|s| == 12 && s[..3] == "998" && AllDigits(s[3..]))
    || (|s| == 13 && s[..4] == "+998" && AllDigits(s[4..]))
  }

  /** `isValidPhone(phone)`. */
  function IsValidPhone(phone: string): (r: bool)
    ensures r ==> |phone| >= 9
    ensures r ==> |CleanPhone(phone)| in {9, 12, 13}
  {
    MatchesPhonePattern(CleanPhone(phone))
  }

  lemma {:induction false} CleanPhoneAppend(a: string, b: string)
    ensures CleanPhone(a + b) == CleanPhone(a) + CleanPhone(b)
  {
    if a != [] {
      CleanPhoneAppend(a[1..], b);
      assert (a + b)[1..] == a[1..] + b;
    } else {
      assert a + b == b;
    }
  }

  lemma {:induction false} CleanPhoneKeepsDigits(s: string)
    requires AllDigits(s)
    ensures CleanPhone(s) == s
  {
    if s != [] {
      CleanPhoneKeepsDigits(s[1..]);
      assert IsDigit(s[0]);
    }
  }

  /** Cleaning twice removes nothing more: the validator judges the cleaned number the same way. */
  lemma {:induction false} CleanPhoneIdempotent(phone: string)
    ensures CleanPhone(CleanPhone(phone)) == CleanPhone(phone)
    ensures IsValidPhone(CleanPhone(phone)) == IsValidPhone(phone)
  {
    if phone != [] {
      CleanPhoneIdempotent(phone[1..]);
      var head := if IsPhoneSeparator(phone[0]) then [] else [phone[0]];
      CleanPhoneAppend(head, CleanPhone(phone[1..]));
    }
  }

  /** A valid phone cleans to nine digits behind an optional 998 or +998, so its last nine characters are digits. */
  lemma ValidPhoneShape(phone: string)
    requires IsValidPhone(phone)
    ensures var c := CleanPhone(phone); |c| in {9, 12, 13} && AllDigits(c[|c| - 9..])
  {
    var c := CleanPhone(phone);
    if |c| == 12 {
      assert c[|c| - 9..] == c[3..];
    } else if |c| == 13 {
      assert c[|c| - 9..] == c[4..];
    }
  }

  /** A blank, hyphen or parenthesis anywhere in the text does not change the verdict. */
  lemma SeparatorIgnored(before: string, c: char, after: string)
    requires IsPhoneSeparator(c)
    ensures IsValidPhone(before + [c] + after) == IsValidPhone(before + after)
  {
    CleanPhoneAppend(before + [c], after);
    CleanPhoneAppend(before, [c]);
    CleanPhoneAppend(before, after);
    assert CleanPhone([c]) == [] by { assert [c][1..] == []; }
    assert CleanPhone(before + [c] + after) == CleanPhone(before + after);
  }

  lemma CountryCodeDigits(digits: string)
    requires AllDigits(digits)
    ensures AllDigits("998" + digits)
  {
    var s := "998" + digits;
    forall i | 0 <= i < |s| ensures IsDigit(s[i]) {
      if i >= 3 { assert s[i] == digits[i - 3]; }
    }
  }

  /** Nine digits are accepted bare and behind 998. */
  lemma NineDigitsAccepted(digits: string)
    requires |digits| == 9 && AllDigits(digits)
    ensures IsValidPhone(digits)
    ensures IsValidPhone("998" + digits)
  {
    CleanPhoneKeepsDigits(digits);
    var s := "998" + digits;
    CountryCodeDigits(digits);
    CleanPhoneKeepsDigits(s);
    assert s[..3] == "998";
    assert s[3..] == digits;
  }

  /** Nine digits are accepted behind the international prefix +998. */
  lemma InternationalAccepted(digits: string)
    requires |digits| == 9 && AllDigits(digits)
    ensures IsValidPhone("+998" + digits)
  {
    var s := "998" + digits;
    CountryCodeDigits(digits);
    CleanPlusDigits(s);
    assert "+998" + digits == "+" + s;
    InternationalPattern(digits);
  }

  /** A plus sign followed by digits is left unchanged by cleaning. */
  lemma CleanPlusDigits(s: string)
    requires AllDigits(s)
    ensures CleanPhone("+" + s) == "+" + s
  {
    CleanPhoneKeepsDigits(s);
    CleanPhoneAppend("+", s);
    assert CleanPhone("+") == "+" by { assert "+"[1..] == []; }
  }

  lemma InternationalPattern(digits: string)
    requires |digits| == 9 && AllDigits(digits)
    ensures MatchesPhonePattern("+998" + digits)
  {
    var c := "+998" + digits;
    assert c[..4] == "+998";
    assert c[4..] == digits;
  }

  /** Digits alone are rejected unless there are nine of them, or twelve starting with 998. */
  lemma DigitCountRejected(digits: string)
    requires AllDigits(digits) && |digits| != 9 && |digits| != 12
    ensures !IsValidPhone(digits)
  {
    CleanPhoneKeepsDigits(digits);
    if |digits| == 13 {
      assert !IsDigit('+');
      assert digits[..4] != "+998" by { assert digits[0] != '+'; }
    }
  }
}
