/** Matching five-field cron expressions. */
module Cron {
  import opened Wrappers
  import Tokens

  // ----- the matcher, on text; None stands for the ValueError of a malformed expression -----

  /** The calendar fields of a minute; the day of the week counts from Monday = 1 to Sunday = 7. */
  datatype When = When(minute: int, hour: int, day: int, month: int, isoWeekday: int)

  predicate IsDigits(s: string) {
    s != "" && forall i :: 0 <= i < |s| ==> '0' <= s[i] <= '9'
  }

  function ToNat(s: string): nat
    requires forall i :: 0 <= i < |s| ==> '0' <= s[i] <= '9'
  {
    if s == "" then 0 else 10 * ToNat(s[..|s| - 1]) + (s[|s| - 1] as int - '0' as int)
  }

  function ParseInt(s: string): Option<nat> {
    if IsDigits(s) then Some(ToNat(s)) else None
  }

  /** The decimal numeral of a number. */
  function Numeral(n: nat): string {
    if n < 10 then [DIGITS[n]] else Numeral(n / 10) + [DIGITS[n % 10]]
  }

  const DIGITS := "0123456789"

  lemma DigitsAre(k: nat)
    requires k < 10
    ensures DIGITS[k] == '0' + k as char
  {
    assert DIGITS == ['0', '1', '2', '3', '4', '5', '6', '7', '8', '9'];
  }

  /** Numbers of any length are read as decimal numerals. */
  lemma {:induction false} NumeralReadsBack(n: nat)
    ensures ParseInt(Numeral(n)) == Some(n)
    decreases n
  {
    var s := Numeral(n);
    if n < 10 {
      DigitsAre(n);
      assert s[..|s| - 1] == "" && ToNat("") == 0;
      assert ToNat(s) == s[0] as int - '0' as int;
    } else {
      DigitsAre(n % 10);
      var front := Numeral(n / 10);
      NumeralReadsBack(n / 10);
      assert s[..|s| - 1] == front;
    }
  }

  /** A text is a number iff it consists of digits, of which there are some. */
  lemma NumbersAreDigits(s: string)
    ensures ParseInt(s).Some? <==> s != "" && forall c <- s :: c in DIGITS
  {
    forall i | 0 <= i < |s|
      ensures '0' <= s[i] <= '9' <==> s[i] in DIGITS
    {
      DigitIs(s[i]);
    }
    assert (forall c <- s :: c in DIGITS) <==> (forall i :: 0 <= i < |s| ==> s[i] in DIGITS);
  }

  lemma DigitIs(c: char)
    ensures '0' <= c <= '9' <==> c in DIGITS
  {
    assert DIGITS == ['0', '1', '2', '3', '4', '5', '6', '7', '8', '9'];
    if '0' <= c <= '9' {
      DigitsAre((c - '0') as nat);
    }
  }

  /** The position of the first `c`, or the length of the text. */
  function Find(s: string, c: char): (i: nat)
    ensures i <= |s| && c !in s[..i] && (i < |s| ==> s[i] == c)
  {
    if s == "" || s[0] == c then 0 else 1 + Find(s[1..], c)
  }

  function SplitAll(s: string, c: char): seq<string>
    decreases |s|
  {
    var i := Find(s, c);
    if i == |s| then [s] else [s[..i]] + SplitAll(s[i + 1..], c)
  }

  function PartMatches(part: string, value: int, lo: int, hi: int): Option<bool> {
    var slash := Find(part, '/');
    var step := if slash < |part| then ParseInt(part[slash + 1..]) else Some(1);
    if step.None? then None else BaseMatches(part[..slash], step.value, value, lo, hi)
  }

  function BaseMatches(base: string, step: nat, value: int, lo: int, hi: int): Option<bool> {
    if base == "*" then InSteps(lo, hi, step, value)
    else
      var dash := Find(base, '-');
      var start := ParseInt(base[..dash]);
      var end := if dash < |base| then ParseInt(base[dash + 1..]) else start;
      if start.None? || end.None? then None else InSteps(start.value, end.value, step, value)
  }

  function InSteps(start: int, end: int, step: nat, value: int): Option<bool> {
    if value < start || value > end then Some(false)
    else if step == 0 then None
    else Some((value - start) % step == 0)
  }

  /** Parts are tried from the left until one matches. */
  function AnyMatches(parts: seq<string>, value: int, lo: int, hi: int): Option<bool> {
    if parts == [] then Some(false)
    else
      var first := PartMatches(parts[0], value, lo, hi);
      if first == Some(false) then AnyMatches(parts[1..], value, lo, hi) else first
  }

  function FieldMatches(field: string, value: int, lo: int, hi: int): Option<bool> {
    AnyMatches(SplitAll(field, ','), value, lo, hi)
  }

  function And(a: Option<bool>, b: Option<bool>): Option<bool> {
    if a == Some(true) then b else a
  }

  function Or(a: Option<bool>, b: Option<bool>): Option<bool> {
    if a == Some(false) then b else a
  }

  /** Sunday may be written as 7, too. */
  function WeekdayMatches(field: string, dow: int): Option<bool> {
    Or(FieldMatches(field, dow, 0, 6), if dow == 0 then FieldMatches(field, 7, 0, 7) else Some(false))
  }

  /** Whether the expression is due in the given minute. */
  function CronMatches(expression: string, when: When): Option<bool> {
    var fields := Tokens.Words(expression);
    if |fields| != 5 then None
    else
      var dow := when.isoWeekday % 7;
      var ok := And(FieldMatches(fields[0], when.minute, 0, 59),
                    And(FieldMatches(fields[1], when.hour, 0, 23), FieldMatches(fields[3], when.month, 1, 12)));
      if ok != Some(true) then ok
      else
        var domOk := FieldMatches(fields[2], when.day, 1, 31);
        var dowOk := WeekdayMatches(fields[4], dow);
        if domOk.None? || dowOk.None? then None
        else if fields[2] == "*" || fields[4] == "*" then Some(domOk.value && dowOk.value)
        else Some(domOk.value || dowOk.value)
  }

  // ----- what a well-formed field denotes -----

  datatype Base = Star | Single(number: string) | Span(first: string, last: string)

  function ShowBase(base: Base): string {
    match base
    case Star => "*"
    case Single(n) => n
    case Span(a, b) => a + "-" + b
  }

  datatype Part = Part(base: Base, step: Option<string>) {
    predicate WellFormed() {
      (match base
       case Star => true
       case Single(n) => IsDigits(n)
       case Span(a, b) => IsDigits(a) && IsDigits(b)) &&
      (step.Some? ==> IsDigits(step.value) && ToNat(step.value) >= 1)
    }

    function Show(): string {
      ShowBase(base) + if step.Some? then "/" + step.value else ""
    }

    function Stride(): (n: nat)
      requires WellFormed()
      ensures n >= 1
    {
      if step.Some? then ToNat(step.value) else 1
    }

    /** The values start, start + step, ... up to the end. */
    ghost function Denotes(lo: int, hi: int): set<int>
      requires WellFormed()
    {
      match base
      case Star => Steps(lo, hi, Stride())
      case Single(n) => Steps(ToNat(n), ToNat(n), Stride())
      case Span(a, b) => Steps(ToNat(a), ToNat(b), Stride())
    }
  }

  ghost function Steps(start: int, end: int, step: nat): set<int>
    requires step >= 1
    decreases end - start
  {
    if start > end then {} else {start} + Steps(start + step, end, step)
  }

  type Field = seq<Part>

  ghost predicate WellFormed(field: Field) {
    field != [] && forall p <- field :: p.WellFormed()
  }

  function ShowField(field: Field): string
    requires field != []
  {
    if |field| == 1 then field[0].Show() else field[0].Show() + "," + ShowField(field[1..])
  }

  ghost function Denoted(field: Field, lo: int, hi: int): set<int>
    requires forall p <- field :: p.WellFormed()
  {
    if field == [] then {} else field[0].Denotes(lo, hi) + Denoted(field[1..], lo, hi)
  }

  // ----- steps -----

  lemma RemainderShift(a: int, step: nat)
    requires step >= 1
    ensures (a - step) % step == a % step
  {
    var q, r := a / step, a % step;
    assert a - step == (q - 1) * step + r;
    RemainderUnique(a - step, q - 1, r, step);
  }

  lemma RemainderUnique(a: int, q: int, r: int, step: nat)
    requires step >= 1 && a == q * step + r && 0 <= r < step
    ensures a % step == r
  {
    var q', r' := a / step, a % step;
    assert (q - q') * step == r' - r;
    if q - q' >= 1 {
      AtLeastOnce(q - q', step);
    } else if q' - q >= 1 {
      AtLeastOnce(q' - q, step);
    }
  }

  lemma AtLeastOnce(k: int, step: nat)
    requires k >= 1
    ensures k * step >= step
  {
    assert k * step == step + (k - 1) * step;
  }

  lemma {:induction false} NothingBefore(start: int, end: int, step: nat, v: int)
    requires step >= 1 && v < start
    ensures v !in Steps(start, end, step)
    decreases end - start
  {
    if start <= end {
      NothingBefore(start + step, end, step, v);
    }
  }

  lemma {:induction false} NothingAfter(start: int, end: int, step: nat, v: int)
    requires step >= 1 && v > end
    ensures v !in Steps(start, end, step)
    decreases end - start
  {
    if start <= end {
      NothingAfter(start + step, end, step, v);
    }
  }

  lemma Between(start: int, step: nat, v: int)
    requires step >= 1 && start <= v < start + step
    ensures (v - start) % step == v - start
  {
    RemainderUnique(v - start, 0, v - start, step);
  }

  lemma OneStepOn(start: int, step: nat, v: int)
    requires step >= 1
    ensures (v - (start + step)) % step == (v - start) % step
  {
    RemainderShift(v - start, step);
    assert v - start - step == v - (start + step);
  }

  /** The enumeration is the arithmetic test of the matcher. */
  lemma {:induction false} StepsMembers(start: int, end: int, step: nat, v: int)
    requires step >= 1
    ensures v in Steps(start, end, step) <==> start <= v <= end && (v - start) % step == 0
    decreases end - start
  {
    if v > end {
      NothingAfter(start, end, step, v);
    } else if v < start {
      NothingBefore(start, end, step, v);
    } else if v < start + step {
      NothingBefore(start + step, end, step, v);
      Between(start, step, v);
    } else {
      StepsMembers(start + step, end, step, v);
      OneStepOn(start, step, v);
    }
  }

  // ----- reading what is shown -----

  lemma {:induction false} FindAbsent(a: string, c: char)
    requires c !in a
    ensures Find(a, c) == |a|
  {
    if a != "" {
      FindAbsent(a[1..], c);
    }
  }

  lemma {:induction false} FindSeparator(a: string, c: char, rest: string)
    requires c !in a
    ensures Find(a + [c] + rest, c) == |a|
  {
    if a != "" {
      FindSeparator(a[1..], c, rest);
      assert (a + [c] + rest)[1..] == a[1..] + [c] + rest;
    }
  }

  lemma SplitShown(a: string, rest: string)
    requires ',' !in a
    ensures SplitAll(a + "," + rest, ',') == [a] + SplitAll(rest, ',')
    ensures SplitAll(a, ',') == [a]
  {
    FindSeparator(a, ',', rest);
    FindAbsent(a, ',');
    assert (a + "," + rest)[..|a|] == a && (a + "," + rest)[|a| + 1..] == rest;
  }

  lemma ShownBase(p: Part)
    requires p.WellFormed()
    ensures '/' !in ShowBase(p.base) && ',' !in ShowBase(p.base) && ShowBase(p.base) != ""
    ensures ShowBase(p.base)[0] == '*' <==> p.base.Star?
  {
  }

  lemma BaseDenotes(p: Part, v: int, lo: int, hi: int)
    requires p.WellFormed()
    ensures BaseMatches(ShowBase(p.base), p.Stride(), v, lo, hi) == Some(v in p.Denotes(lo, hi))
  {
    var text := ShowBase(p.base);
    match p.base
    case Star =>
      StepsMembers(lo, hi, p.Stride(), v);
    case Single(n) =>
      FindAbsent(n, '-');
      assert text[..|text|] == n;
      StepsMembers(ToNat(n), ToNat(n), p.Stride(), v);
    case Span(a, b) =>
      FindSeparator(a, '-', b);
      assert text == a + ['-'] + b;
      assert text[..|a|] == a && text[|a| + 1..] == b;
      StepsMembers(ToNat(a), ToNat(b), p.Stride(), v);
  }

  /** A well-formed part matches exactly the values it denotes. */
  lemma PartDenotes(p: Part, v: int, lo: int, hi: int)
    requires p.WellFormed()
    ensures PartMatches(p.Show(), v, lo, hi) == Some(v in p.Denotes(lo, hi)) && ',' !in p.Show()
  {
    var base, text := ShowBase(p.base), p.Show();
    ShownBase(p);
    BaseDenotes(p, v, lo, hi);
    if p.step.Some? {
      assert text == base + ['/'] + p.step.value;
      FindSeparator(base, '/', p.step.value);
      assert text[..|base|] == base && text[|base| + 1..] == p.step.value;
    } else {
      assert text == base;
      FindAbsent(base, '/');
      assert text[..|base|] == base;
    }
  }

  /** A step of zero is malformed, but that is noticed only for values in the range. */
  lemma ZeroStepFails(p: Part, v: int, lo: int, hi: int)
    requires p.WellFormed() && p.step.None?
    ensures PartMatches(ShowBase(p.base) + "/0", v, lo, hi) == if v in p.Denotes(lo, hi) then None else Some(false)
  {
    var base := ShowBase(p.base);
    var text := base + "/0";
    ShownBase(p);
    FindSeparator(base, '/', "0");
    assert text == base + ['/'] + "0";
    assert text[..|base|] == base && text[|base| + 1..] == "0";
    assert ParseInt("0") == Some(0) by {
      NumeralReadsBack(0);
    }
    BaseOfZeroStep(p, v, lo, hi);
  }

  lemma BaseOfZeroStep(p: Part, v: int, lo: int, hi: int)
    requires p.WellFormed() && p.step.None?
    ensures BaseMatches(ShowBase(p.base), 0, v, lo, hi) == if v in p.Denotes(lo, hi) then None else Some(false)
  {
    var text := ShowBase(p.base);
    match p.base
    case Star =>
      StepsMembers(lo, hi, 1, v);
    case Single(n) =>
      FindAbsent(n, '-');
      assert text[..|text|] == n;
      StepsMembers(ToNat(n), ToNat(n), 1, v);
    case Span(a, b) =>
      FindSeparator(a, '-', b);
      assert text == a + ['-'] + b;
      assert text[..|a|] == a && text[|a| + 1..] == b;
      StepsMembers(ToNat(a), ToNat(b), 1, v);
  }

  /** A well-formed field matches exactly the union of what its parts denote. */
  lemma {:induction false} FieldDenotes(field: Field, v: int, lo: int, hi: int)
    requires WellFormed(field)
    ensures FieldMatches(ShowField(field), v, lo, hi) == Some(v in Denoted(field, lo, hi))
    decreases |field|
  {
    PartDenotes(field[0], v, lo, hi);
    if |field| == 1 {
      SplitShown(field[0].Show(), "");
      assert AnyMatches([field[0].Show()][1..], v, lo, hi) == Some(false);
    } else {
      SplitShown(field[0].Show(), ShowField(field[1..]));
      FieldDenotes(field[1..], v, lo, hi);
      var parts := SplitAll(ShowField(field), ',');
      assert parts[1..] == SplitAll(ShowField(field[1..]), ',');
    }
  }

  /** The first part that is not simply missed decides: a match hides what comes after it, a malformed part makes the
      whole field malformed. */
  lemma {:induction false} FirstDecides(parts: seq<string>, k: nat, v: int, lo: int, hi: int)
    requires k < |parts| && PartMatches(parts[k], v, lo, hi) != Some(false)
    requires forall i :: 0 <= i < k ==> PartMatches(parts[i], v, lo, hi) == Some(false)
    ensures AnyMatches(parts, v, lo, hi) == PartMatches(parts[k], v, lo, hi)
  {
    if k > 0 {
      assert forall i :: 0 <= i < k - 1 ==> parts[1..][i] == parts[i + 1];
      FirstDecides(parts[1..], k - 1, v, lo, hi);
    }
  }

  /** A part that is no star, no number, no range and has no step is malformed, whatever the value. */
  lemma NotANumber(part: string, v: int, lo: int, hi: int)
    requires part != "*" && ParseInt(part).None? && '-' !in part && '/' !in part
    ensures PartMatches(part, v, lo, hi) == None
  {
    FindAbsent(part, '-');
    FindAbsent(part, '/');
    assert part[..|part|] == part;
  }

  // ----- the day of the week and the whole expression -----

  /** A seven that some part other than a star denotes. */
  ghost predicate NamesSeven(field: Field)
    requires WellFormed(field)
  {
    exists p <- field :: !p.base.Star? && 7 in p.Denotes(0, 7)
  }

  lemma {:induction false} DenotedByPart(field: Field, v: int, lo: int, hi: int)
    requires forall p <- field :: p.WellFormed()
    ensures v in Denoted(field, lo, hi) <==> exists p <- field :: v in p.Denotes(lo, hi)
  {
    if field != [] {
      DenotedByPart(field[1..], v, lo, hi);
      assert field == [field[0]] + field[1..];
    }
  }

  /** Testing Sunday as 7 as well only adds the Sundays that a 7 in the field stands for: a star covers Sunday as 0
      already. */
  lemma SundayAsSeven(field: Field, dow: int)
    requires WellFormed(field) && 0 <= dow <= 6
    ensures dow in Denoted(field, 0, 6) || (dow == 0 && 7 in Denoted(field, 0, 7)) <==>
            dow in Denoted(field, 0, 6) || (dow == 0 && NamesSeven(field))
  {
    DenotedByPart(field, 0, 0, 6);
    DenotedByPart(field, 7, 0, 7);
    forall p | p in field && p.base.Star?
      ensures 0 in p.Denotes(0, 6)
    {
      StepsMembers(0, 6, p.Stride(), 0);
    }
  }

  /** The literal `*`. */
  const ANY: Field := [Part(Star, None)]

  lemma ShownStar(field: Field)
    requires WellFormed(field)
    ensures ShowField(field) == "*" <==> field == ANY
  {
    var p := field[0];
    ShownBase(p);
    if ShowField(field) == "*" {
      assert p.Show()[0] == ShowBase(p.base)[0] == ShowField(field)[0];
      assert field == [p];
    }
  }

  datatype Schedule = Schedule(minute: Field, hour: Field, day: Field, month: Field, weekday: Field) {
    ghost predicate Valid() {
      WellFormed(minute) && WellFormed(hour) && WellFormed(day) && WellFormed(month) && WellFormed(weekday)
    }

    function Texts(): seq<string>
      requires minute != [] && hour != [] && day != [] && month != [] && weekday != []
    {
      [ShowField(minute), ShowField(hour), ShowField(day), ShowField(month), ShowField(weekday)]
    }

    /** The minutes a schedule stands for: the two day fields combine by OR exactly when neither is `*`. */
    ghost predicate Denotes(when: When)
      requires Valid()
    {
      var dow := when.isoWeekday % 7;
      var dayHit := when.day in Denoted(day, 1, 31);
      var weekdayHit := dow in Denoted(weekday, 0, 6) || (dow == 0 && NamesSeven(weekday));
      when.minute in Denoted(minute, 0, 59) && when.hour in Denoted(hour, 0, 23) &&
      when.month in Denoted(month, 1, 12) &&
      if day != ANY && weekday != ANY then dayHit || weekdayHit else dayHit && weekdayHit
    }
  }

  /** A well-formed expression is due exactly in the minutes it denotes. */
  lemma CronDenotes(expression: string, s: Schedule, when: When)
    requires s.Valid() && Tokens.Words(expression) == s.Texts()
    ensures CronMatches(expression, when) == Some(s.Denotes(when))
  {
    FieldDenotes(s.minute, when.minute, 0, 59);
    FieldDenotes(s.hour, when.hour, 0, 23);
    FieldDenotes(s.month, when.month, 1, 12);
    FieldDenotes(s.day, when.day, 1, 31);
    WeekdayDenotes(s.weekday, when.isoWeekday % 7);
    ShownStar(s.day);
    ShownStar(s.weekday);
  }

  lemma WeekdayDenotes(field: Field, dow: int)
    requires WellFormed(field) && 0 <= dow <= 6
    ensures WeekdayMatches(ShowField(field), dow) ==
            Some(dow in Denoted(field, 0, 6) || (dow == 0 && NamesSeven(field)))
  {
    FieldDenotes(field, dow, 0, 6);
    FieldDenotes(field, 7, 0, 7);
    SundayAsSeven(field, dow);
  }
}
