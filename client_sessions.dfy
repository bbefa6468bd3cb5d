/** The booking form of the sessions page: 12-hour pickers converted to
    minutes since midnight and to a 24-hour time string, the booking payload
    with its duration rule, and the duration preview. Picker values are the
    strings the form holds; `parseInt` is `DigitsValue`. */
module ClientSessions {
  import opened Common
  import opened Text
  import opened UserModel

  /** The hour picker's options, in display order. */
  const HourOptions: seq<string> := ["12", "1", "2", "3", "4", "5", "6", "7", "8", "9", "10", "11"]

  /** The minute picker's options. */
  const MinuteOptions: seq<string> := ["00", "15", "30", "45"]

  const PeriodOptions: seq<string> := ["AM", "PM"]

  /** The hour after the two adjustments: 12 AM is 0, a PM hour other than 12 gains 12. */
  function Hour24(hour: nat, period: string): (r: nat)
    ensures period == "AM" && hour == 12 ==> r == 0
    ensures period == "PM" && hour == 12 ==> r == 12
    ensures period == "PM" && hour != 12 ==> r == hour + 12
    ensures period == "AM" && hour != 12 ==> r == hour
  {
    var h := if period == "AM" && hour == 12 then 0 else hour;
    if period == "PM" && h != 12 then h + 12 else h
  }

  /** `toMins(h, m, p)`. */
  function ToMins(h: string, m: string, p: string): int
    requires AllDigits(h) && AllDigits(m)
  {
    Hour24(DigitsValue(h), p) * 60 + DigitsValue(m)
  }

  /** `toTime24(h, m, p)`: the padded hour, a colon, then the minute string as given. */
  function ToTime24(h: string, m: string, p: string): string
    requires AllDigits(h)
  {
    Pad2(Hour24(DigitsValue(h), p)) + ":" + m
  }

  /** A choice the three pickers can hold. */
  predicate Picked(h: string, m: string, p: string) {
    h in HourOptions && m in MinuteOptions && p in PeriodOptions
  }

  /** The value each picker option parses to: the first hour option is 12,
      the others their position; the minute options step by 15. */
  lemma OptionValues()
    ensures forall i :: 0 <= i < |HourOptions| ==>
      AllDigits(HourOptions[i]) && DigitsValue(HourOptions[i]) == if i == 0 then 12 else i
    ensures forall i :: 0 <= i < |MinuteOptions| ==>
      AllDigits(MinuteOptions[i]) && |MinuteOptions[i]| == 2 && DigitsValue(MinuteOptions[i]) == 15 * i
  {
    assert DigitsValue("12") == 12 && DigitsValue("10") == 10 && DigitsValue("11") == 11;
    assert DigitsValue("00") == 0 && DigitsValue("15") == 15 && DigitsValue("30") == 30 && DigitsValue("45") == 45;
  }

  /** Every picked time is a minute of the day. */
  lemma ToMinsInDay(h: string, m: string, p: string)
    requires Picked(h, m, p)
    ensures AllDigits(h) && AllDigits(m)
    ensures 0 <= ToMins(h, m, p) < 1440
  {
    OptionValues();
  }

  /** On the picker's hours and periods the 24-hour conversion is one-to-one. */
  lemma Hour24Injective(a: nat, p: string, b: nat, q: string)
    requires 1 <= a <= 12 && 1 <= b <= 12 && p in PeriodOptions && q in PeriodOptions
    ensures Hour24(a, p) == Hour24(b, q) ==> a == b && p == q
  {
  }

  /** Distinct picked times give distinct minutes. */
  lemma ToMinsInjective(h1: string, m1: string, p1: string, h2: string, m2: string, p2: string)
    requires Picked(h1, m1, p1) && Picked(h2, m2, p2)
    ensures AllDigits(h1) && AllDigits(m1) && AllDigits(h2) && AllDigits(m2)
    ensures ToMins(h1, m1, p1) == ToMins(h2, m2, p2) ==> h1 == h2 && m1 == m2 && p1 == p2
  {
    OptionValues();
    var i :| 0 <= i < |HourOptions| && HourOptions[i] == h1;
    var j :| 0 <= j < |HourOptions| && HourOptions[j] == h2;
    var k :| 0 <= k < |MinuteOptions| && MinuteOptions[k] == m1;
    var l :| 0 <= l < |MinuteOptions| && MinuteOptions[l] == m2;
    if ToMins(h1, m1, p1) == ToMins(h2, m2, p2) {
      var x, y := Hour24(DigitsValue(h1), p1), Hour24(DigitsValue(h2), p2);
      assert x * 60 + 15 * k == y * 60 + 15 * l;
      assert x == y && k == l;
      Hour24Injective(DigitsValue(h1), p1, DigitsValue(h2), p2);
      assert i == j;
    }
  }

  /** The 24-hour string is `HH:MM` and reads back as the same minute of the day. */
  lemma Time24AgreesWithMins(h: string, m: string, p: string)
    requires Picked(h, m, p)
    ensures AllDigits(h) && AllDigits(m)
    ensures var t := ToTime24(h, m, p);
      && |t| == 5 && t[2] == ':' && AllDigits(t[..2]) && AllDigits(t[3..])
      && DigitsValue(t[..2]) * 60 + DigitsValue(t[3..]) == ToMins(h, m, p)
  {
    OptionValues();
    var hour := Hour24(DigitsValue(h), p);
    Pad2Exact(hour);
    var t := ToTime24(h, m, p);
    assert t[..2] == Pad2(hour);
    assert t[3..] == m;
  }

  /** The body `handleBookSession` posts. `date` is the text handed to `new
      Date`: the picked day, a `T`, and the 24-hour start time. */
  datatype BookingPayload = BookingPayload(topic: string, notes: string, date: string, duration: int,
                                           mentorId: Id, menteeId: Id)

  /** What the booking handler does: show the error toast, or post the payload. */
  datatype Booking = Refused(message: string) | Send(payload: BookingPayload)

  /** `handleBookSession`: refused unless the end is after the start; a mentee
      books with the partner as mentor, anyone else with the partner as mentee. */
  function BookSession(role: Role, self: Id, partner: Id, day: string,
                       startH: string, startM: string, startP: string,
                       endH: string, endM: string, endP: string,
                       topic: string, notes: string): Booking
    requires AllDigits(startH) && AllDigits(startM) && AllDigits(endH) && AllDigits(endM)
  {
    var duration := ToMins(endH, endM, endP) - ToMins(startH, startM, startP);
    if duration <= 0 then Refused("End time must be after start time.")
    else
      var date := day + "T" + ToTime24(startH, startM, startP);
      if role == Mentee then Send(BookingPayload(topic, notes, date, duration, partner, self))
      else Send(BookingPayload(topic, notes, date, duration, self, partner))
  }

  /** A booking is sent exactly when the end is after the start; its duration is
      positive and, with picked times, ends the same day; the caller is always one
      of the pair, in the role they hold. */
  lemma BookingRules(role: Role, self: Id, partner: Id, day: string,
                     startH: string, startM: string, startP: string,
                     endH: string, endM: string, endP: string, topic: string, notes: string)
    requires Picked(startH, startM, startP) && Picked(endH, endM, endP)
    ensures AllDigits(startH) && AllDigits(startM) && AllDigits(endH) && AllDigits(endM)
    ensures var r := BookSession(role, self, partner, day, startH, startM, startP, endH, endM, endP, topic, notes);
      var start, end := ToMins(startH, startM, startP), ToMins(endH, endM, endP);
      && (r.Send? <==> end > start)
      && (r.Send? ==>
            && r.payload.duration == end - start && 0 < r.payload.duration < 1440
            && start + r.payload.duration < 1440
            && (role == Mentee ==> r.payload.menteeId == self && r.payload.mentorId == partner)
            && (role == Mentor ==> r.payload.mentorId == self && r.payload.menteeId == partner))
  {
    ToMinsInDay(startH, startM, startP);
    ToMinsInDay(endH, endM, endP);
  }

  /** The preview under the pickers. */
  datatype Preview = Duration(text: string) | EndBeforeStart

  /** The duration text: `{h}h`, then ` {m}m` only when there are leftover
      minutes, from an hour up; `{mins} mins` below an hour. */
  function DurationLabel(mins: nat): string {
    if mins >= 60 then
      Decimal(mins / 60) + "h" + (if mins % 60 > 0 then " " + Decimal(mins % 60) + "m" else "")
    else Decimal(mins) + " mins"
  }

  function PreviewFor(mins: int): (r: Preview)
    ensures r.EndBeforeStart? <==> mins <= 0
  {
    if mins > 0 then Duration(DurationLabel(mins)) else EndBeforeStart
  }

  /** The label names the hours and the leftover minutes, which add back up to the duration. */
  lemma DurationLabelReadsBack(mins: nat)
    requires mins > 0
    ensures var s := DurationLabel(mins);
      && (mins < 60 ==> s == Decimal(mins) + " mins" && DigitsValue(s[..|s| - 5]) == mins)
      && (mins >= 60 ==>
            var hp := Decimal(mins / 60);
            && s[..|hp|] == hp && s[|hp|] == 'h'
            && (|s| == |hp| + 1 <==> mins % 60 == 0)
            && (mins % 60 > 0 ==>
                  && s[|hp| + 1..] == " " + Decimal(mins % 60) + "m"
                  && DigitsValue(hp) * 60 + DigitsValue(s[|hp| + 2..|s| - 1]) == mins))
  {
    var s := DurationLabel(mins);
    if mins < 60 {
      DecimalRoundTrip(mins);
      assert s[..|s| - 5] == Decimal(mins);
    } else {
      var hp := Decimal(mins / 60);
      DecimalRoundTrip(mins / 60);
      if mins % 60 > 0 {
        DecimalRoundTrip(mins % 60);
        assert s[|hp| + 2..|s| - 1] == Decimal(mins % 60);
      }
    }
  }
}
