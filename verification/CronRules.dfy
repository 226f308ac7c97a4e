/** The rule of the code for combining the day fields, compared with the rule its comment states and with that of the
    crontab INPUT FILES section of IEEE Std 1003.1. */
module CronRules {
  import opened Wrappers
  import opened Cron
  import Tokens

  /** The calendar fields that a minute can have. */
  predicate Real(when: When) {
    0 <= when.minute <= 59 && 0 <= when.hour <= 23 && 1 <= when.day <= 31 && 1 <= when.month <= 12 &&
    1 <= when.isoWeekday <= 7
  }

  // ----- which fields a minute hits -----

  ghost predicate Hits(field: Field, v: int, lo: int, hi: int)
    requires WellFormed(field)
  {
    v in Denoted(field, lo, hi)
  }

  ghost predicate ClockHits(s: Schedule, when: When)
    requires s.Valid()
  {
    Hits(s.minute, when.minute, 0, 59) && Hits(s.hour, when.hour, 0, 23)
  }

  ghost predicate MonthHits(s: Schedule, when: When)
    requires s.Valid()
  {
    Hits(s.month, when.month, 1, 12)
  }

  ghost predicate DayHits(s: Schedule, when: When)
    requires s.Valid()
  {
    Hits(s.day, when.day, 1, 31)
  }

  /** The day of the week, with Sunday also as 7. */
  ghost predicate DowHits(field: Field, dow: int)
    requires WellFormed(field)
  {
    Hits(field, dow, 0, 6) || (dow == 0 && NamesSeven(field))
  }

  ghost predicate WeekdayHits(s: Schedule, when: When)
    requires s.Valid()
  {
    DowHits(s.weekday, when.isoWeekday % 7)
  }

  /** What the code decides, in terms of these. */
  lemma CodeSays(expression: string, s: Schedule, when: When)
    requires s.Valid() && Tokens.Words(expression) == s.Texts()
    ensures CronMatches(expression, when) ==
            Some(ClockHits(s, when) && MonthHits(s, when) &&
                 if s.day != ANY && s.weekday != ANY then DayHits(s, when) || WeekdayHits(s, when)
                 else DayHits(s, when) && WeekdayHits(s, when))
  {
    CronDenotes(expression, s, when);
  }

  lemma OnlyPart(field: Field, p: Part, v: int, lo: int, hi: int)
    requires field == [p] && p.WellFormed()
    ensures WellFormed(field) && (Hits(field, v, lo, hi) <==> v in p.Denotes(lo, hi))
  {
    assert field[1..] == [] && Denoted(field[1..], lo, hi) == {};
    assert forall x <- field :: x == p;
  }

  /** A literal star hits every value of its range. */
  lemma StarHits(field: Field, v: int, lo: int, hi: int)
    requires field == ANY
    ensures WellFormed(field) && (Hits(field, v, lo, hi) <==> lo <= v <= hi)
  {
    OnlyPart(field, Part(Star, None), v, lo, hi);
    StepsMembers(lo, hi, 1, v);
  }

  function Number(text: string): Field {
    [Part(Single(text), None)]
  }

  /** A number hits itself only. */
  lemma NumberHits(field: Field, text: string, v: int, lo: int, hi: int)
    requires IsDigits(text) && field == Number(text)
    ensures WellFormed(field) && (Hits(field, v, lo, hi) <==> v == ToNat(text)) && field != ANY
  {
    OnlyPart(field, Part(Single(text), None), v, lo, hi);
    StepsMembers(ToNat(text), ToNat(text), 1, v);
    assert field[0].base.Single?;
  }

  lemma NumberHitsDow(field: Field, text: string, dow: int)
    requires IsDigits(text) && field == Number(text) && 1 <= ToNat(text) <= 6 && 0 <= dow <= 6
    ensures WellFormed(field) && (DowHits(field, dow) <==> dow == ToNat(text))
  {
    NumberHits(field, text, dow, 0, 6);
    StepsMembers(ToNat(text), ToNat(text), 1, 7);
  }

  // ----- the comment: OR when either day field is restricted, AND when both are stars -----

  ghost predicate CommentSays(s: Schedule, when: When)
    requires s.Valid()
  {
    ClockHits(s, when) && MonthHits(s, when) &&
    if s.day == ANY && s.weekday == ANY then DayHits(s, when) && WeekdayHits(s, when)
    else DayHits(s, when) || WeekdayHits(s, when)
  }

  /** The code follows its comment exactly when the minute misses the clock or the month, or both or neither of the day
      fields are stars, or both or neither of them are hit. */
  lemma CommentHoldsExactly(expression: string, s: Schedule, when: When)
    requires s.Valid() && Tokens.Words(expression) == s.Texts()
    ensures CronMatches(expression, when) == Some(CommentSays(s, when)) <==>
            !ClockHits(s, when) || !MonthHits(s, when) || (s.day == ANY <==> s.weekday == ANY) ||
            (DayHits(s, when) <==> WeekdayHits(s, when))
  {
    CodeSays(expression, s, when);
  }

  // ----- the standard: the month and the day of the month together, or the weekday -----

  /** With a star for the weekday the month and the day decide, with stars for both of these the weekday does, and else
      either of the two is enough. */
  ghost predicate StandardSays(s: Schedule, when: When)
    requires s.Valid()
  {
    ClockHits(s, when) &&
    if s.weekday == ANY then MonthHits(s, when) && DayHits(s, when)
    else if s.month == ANY && s.day == ANY then WeekdayHits(s, when)
    else (MonthHits(s, when) && DayHits(s, when)) || WeekdayHits(s, when)
  }

  lemma StarsHit(s: Schedule, when: When)
    requires s.Valid() && Real(when)
    ensures s.day == ANY ==> DayHits(s, when)
    ensures s.month == ANY ==> MonthHits(s, when)
    ensures s.weekday == ANY ==> WeekdayHits(s, when)
  {
    if s.day == ANY {
      StarHits(s.day, when.day, 1, 31);
    }
    if s.month == ANY {
      StarHits(s.month, when.month, 1, 12);
    }
    if s.weekday == ANY {
      StarHits(s.weekday, when.isoWeekday % 7, 0, 6);
    }
  }

  /** The code follows the standard exactly when the minute misses the clock, or the weekday is a star, or month and day
      are stars, or else: with a star for the day, month and weekday are both hit or both missed; with a restricted day,
      the month is hit or the weekday missed. */
  lemma StandardHoldsExactly(expression: string, s: Schedule, when: When)
    requires s.Valid() && Tokens.Words(expression) == s.Texts() && Real(when)
    ensures CronMatches(expression, when) == Some(StandardSays(s, when)) <==>
            !ClockHits(s, when) || s.weekday == ANY || (s.month == ANY && s.day == ANY) ||
            if s.day == ANY then MonthHits(s, when) <==> WeekdayHits(s, when)
            else MonthHits(s, when) || !WeekdayHits(s, when)
  {
    CodeSays(expression, s, when);
    StarsHit(s, when);
  }

  // ----- every schedule can be written -----

  lemma {:induction false} FieldBare(field: Field)
    requires WellFormed(field)
    ensures Tokens.Bare(ShowField(field))
    decreases |field|
  {
    PartBare(field[0]);
    if |field| > 1 {
      FieldBare(field[1..]);
    }
  }

  lemma PartBare(p: Part)
    requires p.WellFormed()
    ensures Tokens.Bare(p.Show())
  {
    BaseBare(p);
  }

  lemma BaseBare(p: Part)
    requires p.WellFormed()
    ensures Tokens.Bare(ShowBase(p.base))
  {
  }

  /** Splitting the five fields joined by single spaces gives them back. */
  lemma ScheduleReadsBack(s: Schedule)
    requires s.Valid()
    ensures Tokens.Words(Tokens.JoinWords(s.Texts())) == s.Texts()
  {
    FieldBare(s.minute);
    FieldBare(s.hour);
    FieldBare(s.day);
    FieldBare(s.month);
    FieldBare(s.weekday);
    Tokens.WordsSurvive(s.Texts());
  }

  // ----- witnesses -----

  /** The clock time and the weekday are given as numbers. */
  predicate Weekly(s: Schedule, minute: string, hour: string, weekday: string) {
    IsDigits(minute) && IsDigits(hour) && IsDigits(weekday) && 1 <= ToNat(weekday) <= 6 &&
    s.minute == Number(minute) && s.hour == Number(hour) && s.weekday == Number(weekday)
  }

  predicate OnTheClock(minute: string, hour: string, when: When)
    requires IsDigits(minute) && IsDigits(hour)
  {
    when.minute == ToNat(minute) && when.hour == ToNat(hour)
  }

  lemma ClockIsHit(s: Schedule, minute: string, hour: string, weekday: string, when: When)
    requires s.Valid() && Weekly(s, minute, hour, weekday) && OnTheClock(minute, hour, when)
    ensures ClockHits(s, when)
  {
    NumberHits(s.minute, minute, when.minute, 0, 59);
    NumberHits(s.hour, hour, when.hour, 0, 23);
  }

  lemma WeekdayIsHit(s: Schedule, minute: string, hour: string, weekday: string, when: When)
    requires s.Valid() && Weekly(s, minute, hour, weekday) && Real(when)
    ensures s.weekday != ANY && (WeekdayHits(s, when) <==> when.isoWeekday == ToNat(weekday))
  {
    NumberHits(s.weekday, weekday, 0, 0, 6);
    NumberHitsDow(s.weekday, weekday, when.isoWeekday % 7);
  }

  /** A clock time and a weekday, like `0 0 * * 1`: due on every day by the comment, on that weekday by the code. */
  lemma CommentFails(s: Schedule, minute: string, hour: string, weekday: string, when: When)
    requires s.Valid() && Weekly(s, minute, hour, weekday) && s.day == ANY && s.month == ANY
    requires Real(when) && OnTheClock(minute, hour, when) && when.isoWeekday != ToNat(weekday)
    ensures CommentSays(s, when) && CronMatches(Tokens.JoinWords(s.Texts()), when) == Some(false)
  {
    ClockIsHit(s, minute, hour, weekday, when);
    WeekdayIsHit(s, minute, hour, weekday, when);
    StarsHit(s, when);
    ScheduleReadsBack(s);
    CodeSays(Tokens.JoinWords(s.Texts()), s, when);
  }

  /** A month as well, like `0 0 1 1 1`: on that weekday outside that month due by the standard, not by the code. */
  lemma StandardFails(s: Schedule, minute: string, hour: string, month: string, weekday: string, when: When)
    requires s.Valid() && Weekly(s, minute, hour, weekday) && s.month == Number(month) && IsDigits(month)
    requires Real(when) && OnTheClock(minute, hour, when)
    requires when.isoWeekday == ToNat(weekday) && when.month != ToNat(month)
    ensures StandardSays(s, when) && CronMatches(Tokens.JoinWords(s.Texts()), when) == Some(false)
  {
    ClockIsHit(s, minute, hour, weekday, when);
    WeekdayIsHit(s, minute, hour, weekday, when);
    NumberHits(s.month, month, when.month, 1, 12);
    assert !MonthHits(s, when);
    ScheduleReadsBack(s);
    CodeSays(Tokens.JoinWords(s.Texts()), s, when);
  }

  lemma ShownNumber(field: Field, text: string)
    requires IsDigits(text) && field == Number(text)
    ensures WellFormed(field) && ShowField(field) == text
  {
    OnlyPart(field, Part(Single(text), None), 0, 0, 0);
    assert |field| == 1 && field[0].Show() == text + "";
  }

  /** The schedules of the two expressions named above. */
  lemma Examples(s: Schedule)
    requires s.minute == Number("0") && s.hour == Number("0") && s.weekday == Number("1")
    requires (s.day == ANY && s.month == ANY) || (s.day == Number("1") && s.month == Number("1"))
    ensures s.Valid() && Weekly(s, "0", "0", "1")
    ensures s.day == ANY ==> s.Texts() == ["0", "0", "*", "*", "1"]
    ensures s.day != ANY ==> s.Texts() == ["0", "0", "1", "1", "1"]
  {
    assert ToNat("1") == 10 * ToNat("1"[..0]) + 1;
    ShownNumber(s.minute, "0");
    ShownNumber(s.weekday, "1");
    ShownNumber(Number("1"), "1");
    ShownStar(ANY);
  }

  lemma ExampleWords()
    ensures Tokens.JoinWords(["0", "0", "*", "*", "1"]) == "0 0 * * 1"
    ensures Tokens.JoinWords(["0", "0", "1", "1", "1"]) == "0 0 1 1 1"
  {
  }

  /** The two rules fail on these expressions as written. */
  lemma NamedExpressions(s: Schedule, when: When)
    requires s.minute == Number("0") && s.hour == Number("0") && s.weekday == Number("1")
    requires (s.day == ANY && s.month == ANY) || (s.day == Number("1") && s.month == Number("1"))
    requires Real(when) && when.minute == 0 == when.hour
    ensures s.Valid()
    ensures s.day == ANY && when.isoWeekday != 1 ==>
              CommentSays(s, when) && CronMatches("0 0 * * 1", when) == Some(false)
    ensures s.day != ANY && when.isoWeekday == 1 && when.month != 1 ==>
              StandardSays(s, when) && CronMatches("0 0 1 1 1", when) == Some(false)
  {
    Examples(s);
    ExampleWords();
    if s.day == ANY && when.isoWeekday != 1 {
      CommentFails(s, "0", "0", "1", when);
    } else if s.day != ANY && when.isoWeekday == 1 && when.month != 1 {
      StandardFails(s, "0", "0", "1", "1", when);
    }
  }
}
