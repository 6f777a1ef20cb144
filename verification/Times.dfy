/** Reader timestamps: `datetime.strptime` over the five formats of push_ingest.py. */
module Times {
  import opened Text

  datatype DateTime = DateTime(year: int, month: int, day: int, hour: int, minute: int, second: int)

  predicate LeapYear(y: int) {
    y % 4 == 0 && (y % 100 != 0 || y % 400 == 0)
  }

  function DaysIn(y: int, m: int): int {
    if m == 2 then (if LeapYear(y) then 29 else 28)
    else if m == 4 || m == 6 || m == 9 || m == 11 then 30
    else 31
  }

  /** What the `datetime` constructor accepts. */
  predicate Valid(t: DateTime) {
    && 1 <= t.year <= 9999
    && 1 <= t.month <= 12
    && 1 <= t.day <= DaysIn(t.year, t.month)
    && 0 <= t.hour < 24 && 0 <= t.minute < 60 && 0 <= t.second < 60
  }

  const EPOCH := DateTime(1900, 1, 1, 0, 0, 0)

  /** A naive `datetime` with whole seconds. */
  type Moment = t: DateTime | Valid(t) witness EPOCH

  // ---------------------------------------------------------------------------
  // Formats
  // ---------------------------------------------------------------------------

  datatype Directive = Year | Month | Day | Hour | Minute | Second

  datatype Item = Lit(c: char) | Blank | Field(d: Directive)

  /** The formats firmware has been seen to send. */
  datatype Format = Dashed | Slashed | ToTheMinute | DayFirst | Compact

  /** In the order they are tried. */
  const TIME_FORMATS: seq<Format> := [Dashed, Slashed, ToTheMinute, DayFirst, Compact]

  type Layout = seq<Item>

  function Items(f: Format): Layout {
    match f
    case Dashed =>
      [Field(Year), Lit('-'), Field(Month), Lit('-'), Field(Day), Blank,
       Field(Hour), Lit(':'), Field(Minute), Lit(':'), Field(Second)]
    case Slashed =>
      [Field(Year), Lit('/'), Field(Month), Lit('/'), Field(Day), Blank,
       Field(Hour), Lit(':'), Field(Minute), Lit(':'), Field(Second)]
    case ToTheMinute =>
      [Field(Year), Lit('-'), Field(Month), Lit('-'), Field(Day), Blank,
       Field(Hour), Lit(':'), Field(Minute)]
    case DayFirst =>
      [Field(Day), Lit('-'), Field(Month), Lit('-'), Field(Year), Blank,
       Field(Hour), Lit(':'), Field(Minute), Lit(':'), Field(Second)]
    case Compact =>
      [Field(Year), Field(Month), Field(Day), Field(Hour), Field(Minute), Field(Second)]
  }

  function Get(t: DateTime, d: Directive): int {
    match d
    case Year => t.year
    case Month => t.month
    case Day => t.day
    case Hour => t.hour
    case Minute => t.minute
    case Second => t.second
  }

  function Put(t: DateTime, d: Directive, v: int): DateTime {
    match d
    case Year => t.(year := v)
    case Month => t.(month := v)
    case Day => t.(day := v)
    case Hour => t.(hour := v)
    case Minute => t.(minute := v)
    case Second => t.(second := v)
  }

  // ---------------------------------------------------------------------------
  // Matching: the regular expression strptime builds, tried alternative by alternative
  // ---------------------------------------------------------------------------

  predicate Digits(s: string, n: nat) {
    |s| >= n && forall i :: 0 <= i < n ==> IsDigit(s[i])
  }

  function Two(s: string): int
    requires Digits(s, 2)
  {
    DigitValue(s[0]) * 10 + DigitValue(s[1])
  }

  function Four(s: string): int
    requires Digits(s, 4)
  {
    Two(s) * 100 + Two(s[2..])
  }

  predicate TwoDigitRange(d: Directive, v: int) {
    match d
    case Year => false
    case Month => 1 <= v <= 12
    case Day => 1 <= v <= 31
    case Hour => v <= 23
    case Minute => v <= 59
    case Second => v <= 61
  }

  predicate ZeroAlone(d: Directive) {
    d.Hour? || d.Minute? || d.Second?
  }

  datatype Piece = Piece(value: int, width: nat)

  /** The preferred reading of a field: four digits of year, else two digits in range. */
  function Wide(d: Directive, s: string): (r: Option<Piece>)
    ensures r.Some? ==> 0 < r.value.width <= |s|
  {
    if d.Year? then (if Digits(s, 4) then Some(Piece(Four(s), 4)) else None)
    else if Digits(s, 2) && TwoDigitRange(d, Two(s)) then Some(Piece(Two(s), 2))
    else None
  }

  /** The reading strptime falls back on: one digit, or for a day also blank-then-digit. */
  function Narrow(d: Directive, s: string): (r: Option<Piece>)
    ensures r.Some? ==> 0 < r.value.width <= |s|
  {
    if d.Year? then None
    else if Digits(s, 1) && (ZeroAlone(d) || s[0] != '0') then Some(Piece(DigitValue(s[0]), 1))
    else if d.Day? && |s| >= 2 && s[0] == ' ' && IsDigit(s[1]) && s[1] != '0'
    then Some(Piece(DigitValue(s[1]), 2))
    else None
  }

  datatype Hit = Hit(time: DateTime, rest: string)

  /** Leftmost match of a format against the start of `s`, with the fields read so far in `t`. */
  function MatchFrom(f: Layout, s: string, t: DateTime): Option<Hit>
    decreases |f|
  {
    if f == [] then Some(Hit(t, s))
    else match f[0]
      case Lit(c) =>
        if s != [] && s[0] == c then MatchFrom(f[1..], s[1..], t) else None
      case Blank =>
        if s != [] && IsSpace(s[0]) then MatchFrom(f[1..], LStrip(s), t) else None
      case Field(d) =>
        var wide := MatchPiece(f, d, s, t, Wide(d, s));
        if wide.Some? then wide else MatchPiece(f, d, s, t, Narrow(d, s))
  }

  function MatchPiece(f: Layout, d: Directive, s: string, t: DateTime, p: Option<Piece>): Option<Hit>
    requires f != []
    requires p.Some? ==> p.value.width <= |s|
    decreases |f|, 0
  {
    if p.None? then None else MatchFrom(f[1..], s[p.value.width..], Put(t, d, p.value.value))
  }

  /** `datetime.strptime(s, f)`, or None where Python raises ValueError. */
  function Strptime(f: Format, s: string): (r: Option<DateTime>)
    ensures r.Some? ==> Valid(r.value)
  {
    var hit := MatchFrom(Items(f), s, EPOCH);
    if hit.Some? && hit.value.rest == [] && Valid(hit.value.time) then Some(hit.value.time) else None
  }

  function FirstFormat(fs: seq<Format>, s: string): (r: Option<DateTime>)
    ensures r.Some? ==> Valid(r.value)
  {
    if fs == [] then None
    else
      var r := Strptime(fs[0], s);
      if r.Some? then r else FirstFormat(fs[1..], s)
  }

  /** `_parse_time` */
  function ParseTime(raw: string): (r: Option<DateTime>)
    ensures r.Some? ==> Valid(r.value)
  {
    var value := Strip(raw);
    if value == [] then None else FirstFormat(TIME_FORMATS, value)
  }

  // ---------------------------------------------------------------------------
  // Printing with zero padding
  // ---------------------------------------------------------------------------

  function Pad2(v: int): (s: string)
    requires 0 <= v < 100
    ensures Digits(s, 2) && |s| == 2 && Two(s) == v
  {
    [DigitChar(v / 10), DigitChar(v % 10)]
  }

  function Pad4(v: int): (s: string)
    requires 0 <= v < 10000
    ensures Digits(s, 4) && |s| == 4 && Four(s) == v
  {
    var high, low := Pad2(v / 100), Pad2(v % 100);
    assert (high + low)[2..] == low;
    high + low
  }

  function PrintField(d: Directive, t: DateTime): string
    requires Valid(t)
  {
    if d.Year? then Pad4(t.year) else Pad2(Get(t, d))
  }

  function PrintItem(i: Item, t: DateTime): string
    requires Valid(t)
  {
    match i
    case Lit(c) => [c]
    case Blank => " "
    case Field(d) => PrintField(d, t)
  }

  function Print(f: Layout, t: DateTime): string
    requires Valid(t)
  {
    if f == [] then [] else PrintItem(f[0], t) + Print(f[1..], t)
  }

  // ---------------------------------------------------------------------------
  // No text is accepted by two formats
  // ---------------------------------------------------------------------------

  /** Occurrences of a separator in a text, and in a format's literals. */
  function Count(s: string, c: char): nat {
    if s == [] then 0 else (if s[0] == c then 1 else 0) + Count(s[1..], c)
  }

  function Literals(f: Layout, c: char): nat {
    multiset(f)[Lit(c)]
  }

  predicate Separator(c: char) {
    !IsDigit(c) && !IsSpace(c)
  }

  lemma {:induction false} CountDropsPlain(s: string, n: nat, c: char)
    requires n <= |s| && forall i :: 0 <= i < n ==> s[i] != c
    ensures Count(s, c) == Count(s[n..], c)
  {
    if n > 0 {
      CountDropsPlain(s[1..], n - 1, c);
      assert s[1..][n - 1..] == s[n..];
    } else {
      assert s[0..] == s;
    }
  }

  lemma {:induction false} LStripCount(s: string, c: char)
    requires Separator(c)
    ensures Count(LStrip(s), c) == Count(s, c)
  {
    if s != [] && IsSpace(s[0]) {
      LStripCount(s[1..], c);
    }
  }

  /** A match consumes exactly the separators its format spells out. */
  lemma {:induction false} MatchCounts(f: Layout, s: string, t: DateTime, c: char)
    requires Separator(c)
    requires MatchFrom(f, s, t).Some?
    ensures Count(s, c) == Literals(f, c) + Count(MatchFrom(f, s, t).value.rest, c)
    decreases |f|
  {
    if f != [] {
      assert f == [f[0]] + f[1..];
      match f[0]
      case Lit(_) => MatchCounts(f[1..], s[1..], t, c);
      case Blank =>
        LStripCount(s, c);
        MatchCounts(f[1..], LStrip(s), t, c);
      case Field(d) =>
        var p := if MatchPiece(f, d, s, t, Wide(d, s)).Some? then Wide(d, s).value else Narrow(d, s).value;
        CountDropsPlain(s, p.width, c);
        MatchCounts(f[1..], s[p.width..], Put(t, d, p.value), c);
    }
  }

  lemma DashedColons()
    ensures Literals(Items(Dashed), ':') == 2
  {
  }

  lemma MinuteColons()
    ensures Literals(Items(ToTheMinute), ':') == 1
  {
  }

  lemma YearOpens(l: Layout, s: string, t: DateTime)
    requires l != [] && l[0] == Field(Year) && MatchFrom(l, s, t).Some?
    ensures Digits(s, 4) && MatchFrom(l[1..], s[4..], Put(t, Year, Four(s))).Some?
  {
  }

  lemma NextOpens(l: Layout, s: string, t: DateTime)
    requires l != [] && MatchFrom(l, s, t).Some?
    ensures l[0].Lit? ==> s != [] && s[0] == l[0].c
    ensures l[0] == Field(Month) ==> s != [] && IsDigit(s[0])
  {
  }

  /** The character after a four-digit year tells the year-first formats apart. */
  lemma YearFirstOpens(f: Format, s: string)
    requires f != DayFirst && Strptime(f, s).Some?
    ensures Digits(s, 4) && |s| > 4
    ensures f.Dashed? || f.ToTheMinute? ==> s[4] == '-'
    ensures f.Slashed? ==> s[4] == '/'
    ensures f.Compact? ==> IsDigit(s[4])
  {
    var l := Items(f);
    YearOpens(l, s, EPOCH);
    NextOpens(l[1..], s[4..], Put(EPOCH, Year, Four(s)));
    assert l[1..][0] == l[1];
    assert s[4..][0] == s[4];
  }

  lemma DayFirstOpens(s: string)
    requires Strptime(DayFirst, s).Some?
    ensures !Digits(s, 4)
  {
    var l := Items(DayFirst);
    var wide := MatchPiece(l, Day, s, EPOCH, Wide(Day, s));
    var width := if wide.Some? then Wide(Day, s).value.width else Narrow(Day, s).value.width;
    assert s[width..] != [] && s[width..][0] == '-';
    assert s[width] == '-';
  }

  /** No text is read by two of the five formats. */
  lemma FormatsDisjoint(s: string, f: Format, g: Format)
    requires f != g && Strptime(f, s).Some?
    ensures Strptime(g, s).None?
  {
    hide Items, MatchFrom, Literals, Digits;
    if Strptime(g, s).Some? {
      if f == DayFirst {
        DayFirstOpens(s);
        YearFirstOpens(g, s);
      } else if g == DayFirst {
        DayFirstOpens(s);
        YearFirstOpens(f, s);
      } else {
        YearFirstOpens(f, s);
        YearFirstOpens(g, s);
        MatchCounts(Items(f), s, EPOCH, ':');
        MatchCounts(Items(g), s, EPOCH, ':');
        DashedColons();
        MinuteColons();
      }
    }
  }

  // ---------------------------------------------------------------------------
  // Printing a valid time and reading it back
  // ---------------------------------------------------------------------------

  /** The fields of `t` that a format carries, over the defaults in `base`. */
  function Overlay(f: Layout, t: DateTime, base: DateTime): DateTime {
    DateTime(
      if Field(Year) in f then t.year else base.year,
      if Field(Month) in f then t.month else base.month,
      if Field(Day) in f then t.day else base.day,
      if Field(Hour) in f then t.hour else base.hour,
      if Field(Minute) in f then t.minute else base.minute,
      if Field(Second) in f then t.second else base.second)
  }

  lemma CarriesStep(f: Layout, d: Directive)
    requires f != []
    ensures Field(d) in f <==> f[0] == Field(d) || Field(d) in f[1..]
  {
    assert f == [f[0]] + f[1..];
  }

  lemma OverlayStep(f: Layout, t: DateTime, base: DateTime)
    requires f != []
    ensures Overlay(f, t, base)
         == Overlay(f[1..], t, if f[0].Field? then Put(base, f[0].d, Get(t, f[0].d)) else base)
  {
    CarriesStep(f, Year);
    CarriesStep(f, Month);
    CarriesStep(f, Day);
    CarriesStep(f, Hour);
    CarriesStep(f, Minute);
    CarriesStep(f, Second);
  }

  /** Formats open and close with a field, and every blank is followed by one. */
  predicate Fielded(f: Layout) {
    && f != [] && f[|f| - 1].Field?
    && forall i :: 0 <= i < |f| && f[i].Blank? ==> i + 1 < |f| && f[i + 1].Field?
  }

  lemma PrintedField(d: Directive, t: DateTime, rest: string)
    requires Valid(t)
    ensures var s := PrintField(d, t) + rest;
      Wide(d, s) == Some(Piece(Get(t, d), |PrintField(d, t)|)) && s[|PrintField(d, t)|..] == rest
    ensures IsDigit(PrintField(d, t)[0]) && IsDigit(PrintField(d, t)[|PrintField(d, t)| - 1])
  {
    var p := PrintField(d, t);
    var s := p + rest;
    assert forall i :: 0 <= i < |p| ==> s[i] == p[i];
    if d.Year? {
      assert s[2..][0] == p[2..][0] && s[2..][1] == p[2..][1];
    }
  }

  lemma FieldedTail(f: Layout)
    requires Fielded(f) && |f| > 1
    ensures Fielded(f[1..])
  {
    forall i | 0 <= i < |f[1..]| && f[1..][i].Blank? ensures i + 1 < |f[1..]| && f[1..][i + 1].Field? {
      assert f[i + 1].Blank?;
    }
  }

  /** Printed text opens with its first field's digits and always ends in a digit. */
  lemma {:induction false} PrintedEnds(f: Layout, t: DateTime)
    requires Valid(t) && Fielded(f)
    ensures Print(f, t) != []
    ensures IsDigit(Print(f, t)[|Print(f, t)| - 1])
    ensures f[0].Field? ==> IsDigit(Print(f, t)[0])
  {
    if |f| > 1 {
      FieldedTail(f);
      PrintedEnds(f[1..], t);
    }
  }

  lemma PrintMatchesField(f: Layout, t: DateTime, base: DateTime)
    requires Valid(t) && f != [] && f[0].Field?
    requires |f| > 1 ==> Fielded(f[1..])
    requires MatchFrom(f[1..], Print(f[1..], t), Put(base, f[0].d, Get(t, f[0].d))).Some?
    ensures MatchFrom(f, Print(f, t), base)
         == MatchFrom(f[1..], Print(f[1..], t), Put(base, f[0].d, Get(t, f[0].d)))
  {
    PrintedField(f[0].d, t, Print(f[1..], t));
  }

  lemma PrintMatchesPlain(f: Layout, t: DateTime, base: DateTime)
    requires Valid(t) && |f| > 1 && !f[0].Field? && Fielded(f)
    ensures MatchFrom(f, Print(f, t), base) == MatchFrom(f[1..], Print(f[1..], t), base)
  {
    var rest := Print(f[1..], t);
    FieldedTail(f);
    PrintedEnds(f[1..], t);
    if f[0].Blank? {
      assert Print(f, t)[1..] == rest;
      assert IsDigit(rest[0]);
      assert LStrip(Print(f, t)) == LStrip(rest) == rest;
    } else {
      assert Print(f, t)[1..] == rest;
    }
  }

  lemma {:induction false} PrintMatches(f: Layout, t: DateTime, base: DateTime)
    requires Valid(t) && (f != [] ==> Fielded(f))
    ensures MatchFrom(f, Print(f, t), base) == Some(Hit(Overlay(f, t, base), []))
    decreases |f|
  {
    if f != [] {
      if |f| > 1 {
        FieldedTail(f);
      }
      OverlayStep(f, t, base);
      if f[0].Field? {
        PrintMatches(f[1..], t, Put(base, f[0].d, Get(t, f[0].d)));
        PrintMatchesField(f, t, base);
      } else {
        PrintMatches(f[1..], t, base);
        PrintMatchesPlain(f, t, base);
      }
    }
  }

  lemma {:induction false} FirstFormatIs(fs: seq<Format>, s: string, f: Format)
    requires f in fs && Strptime(f, s).Some?
    ensures FirstFormat(fs, s) == Strptime(f, s)
  {
    if fs[0] != f {
      FormatsDisjoint(s, f, fs[0]);
      FirstFormatIs(fs[1..], s, f);
    }
  }

  lemma NothingIsNoTime(f: Format)
    ensures Strptime(f, []).None?
  {
  }

  /** What `_parse_time` answers is decided by the one format that accepts the text. */
  lemma ParsedByItsFormat(raw: string, f: Format)
    requires Strptime(f, Strip(raw)).Some?
    ensures ParseTime(raw) == Strptime(f, Strip(raw))
  {
    NothingIsNoTime(f);
    assert TIME_FORMATS[0] == Dashed && TIME_FORMATS[1] == Slashed && TIME_FORMATS[2] == ToTheMinute;
    assert TIME_FORMATS[3] == DayFirst && TIME_FORMATS[4] == Compact;
    FirstFormatIs(TIME_FORMATS, Strip(raw), f);
  }

  lemma FormatsFielded(f: Format)
    ensures Fielded(Items(f)) && Items(f)[0].Field?
  {
  }

  /** `t` to the precision of a format: only the minute format drops anything. */
  function Precise(f: Format, t: DateTime): DateTime {
    if f.ToTheMinute? then t.(second := 0) else t
  }

  lemma FormatsCarry(f: Format, t: DateTime)
    ensures Overlay(Items(f), t, EPOCH) == Precise(f, t)
  {
    var l := Items(f);
    match f
    case Compact =>
      assert l[0] == Field(Year) && l[1] == Field(Month) && l[2] == Field(Day);
      assert l[3] == Field(Hour) && l[4] == Field(Minute) && l[5] == Field(Second);
    case DayFirst =>
      assert l[0] == Field(Day) && l[2] == Field(Month) && l[4] == Field(Year);
      assert l[6] == Field(Hour) && l[8] == Field(Minute) && l[10] == Field(Second);
    case ToTheMinute =>
      assert l[0] == Field(Year) && l[2] == Field(Month) && l[4] == Field(Day);
      assert l[6] == Field(Hour) && l[8] == Field(Minute);
    case _ =>
      assert l[0] == Field(Year) && l[2] == Field(Month) && l[4] == Field(Day);
      assert l[6] == Field(Hour) && l[8] == Field(Minute) && l[10] == Field(Second);
  }

  lemma PrintedIsAccepted(l: Layout, t: DateTime)
    requires Valid(t) && Fielded(l) && l[0].Field?
    ensures MatchFrom(l, Print(l, t), EPOCH) == Some(Hit(Overlay(l, t, EPOCH), []))
    ensures Strip(Print(l, t)) == Print(l, t)
  {
    PrintMatches(l, t, EPOCH);
    PrintedEnds(l, t);
    StripTrims(Print(l, t));
  }

  /** A valid time printed in any of the five formats is read back, to the format's precision. */
  lemma PrintedTimeIsRead(f: Format, t: DateTime)
    requires Valid(t)
    ensures Strptime(f, Print(Items(f), t)) == Some(Precise(f, t))
    ensures ParseTime(Print(Items(f), t)) == Some(Precise(f, t))
  {
    hide MatchFrom, Print, Items, Overlay, Fielded;
    FormatsCarry(f, t);
    FormatsFielded(f);
    PrintedIsAccepted(Items(f), t);
    ParsedByItsFormat(Print(Items(f), t), f);
  }

  // ---------------------------------------------------------------------------
  // The calendar
  // ---------------------------------------------------------------------------

  /** Days of the first `m` months of a year. */
  function DaysOfMonths(y: int, m: nat): int {
    if m == 0 then 0 else DaysOfMonths(y, m - 1) + DaysIn(y, m)
  }

  /** Days of the years from 1 to `y`. */
  function DaysOfYears(y: nat): int {
    if y == 0 then 0 else DaysOfYears(y - 1) + DaysOfMonths(y, 12)
  }

  lemma YearLength(y: int)
    ensures DaysOfMonths(y, 12) == if LeapYear(y) then 366 else 365
  {
    hide LeapYear;
    assert DaysOfMonths(y, 0) == 0;
    assert DaysOfMonths(y, 1) == 31;
    assert DaysOfMonths(y, 2) == 31 + DaysIn(y, 2);
    assert DaysOfMonths(y, 3) == DaysOfMonths(y, 2) + 31;
    assert DaysOfMonths(y, 4) == DaysOfMonths(y, 3) + 30;
    assert DaysOfMonths(y, 5) == DaysOfMonths(y, 4) + 31;
    assert DaysOfMonths(y, 6) == DaysOfMonths(y, 5) + 30;
    assert DaysOfMonths(y, 7) == DaysOfMonths(y, 6) + 31;
    assert DaysOfMonths(y, 8) == DaysOfMonths(y, 7) + 31;
    assert DaysOfMonths(y, 9) == DaysOfMonths(y, 8) + 30;
    assert DaysOfMonths(y, 10) == DaysOfMonths(y, 9) + 31;
    assert DaysOfMonths(y, 11) == DaysOfMonths(y, 10) + 30;
    assert DaysOfMonths(y, 12) == DaysOfMonths(y, 11) + 31;
  }

  lemma Fourth(y: nat)
    requires y > 0
    ensures y / 4 == (y - 1) / 4 + (if y % 4 == 0 then 1 else 0)
  {
  }

  lemma Hundredth(y: nat)
    requires y > 0
    ensures y / 100 == (y - 1) / 100 + (if y % 100 == 0 then 1 else 0)
  {
    var q, r := y / 100, y % 100;
    assert y == 100 * q + r;
    QuotientOf100(y - 1, if r == 0 then q - 1 else q);
  }

  lemma QuotientOf100(n: int, q: int)
    requires 100 * q <= n < 100 * q + 100
    ensures n / 100 == q
  {
  }

  lemma FourHundredth(y: nat)
    requires y > 0
    ensures y / 400 == (y - 1) / 400 + (if y % 400 == 0 then 1 else 0)
  {
    var q, r := y / 400, y % 400;
    assert y == 400 * q + r;
    QuotientOf400(y - 1, if r == 0 then q - 1 else q);
  }

  lemma QuotientOf400(n: int, q: int)
    requires 400 * q <= n < 400 * q + 400
    ensures n / 400 == q
  {
  }

  lemma CenturiesAreFourths(y: nat)
    ensures y % 100 == 0 ==> y % 4 == 0
    ensures y % 400 == 0 ==> y % 100 == 0
  {
    if y % 100 == 0 {
      FourTimes(y, 25 * (y / 100));
    }
    if y % 400 == 0 {
      HundredTimes(y, 4 * (y / 400));
    }
  }

  lemma FourTimes(n: int, k: int)
    requires n == 4 * k
    ensures n % 4 == 0
  {
  }

  lemma HundredTimes(n: int, k: int)
    requires n == 100 * k
    ensures n % 100 == 0
  {
  }

  lemma LeapCount(y: nat)
    requires y > 0
    ensures y / 4 - y / 100 + y / 400
         == (y - 1) / 4 - (y - 1) / 100 + (y - 1) / 400 + (if LeapYear(y) then 1 else 0)
  {
    Fourth(y);
    Hundredth(y);
    FourHundredth(y);
    CenturiesAreFourths(y);
  }

  /** The Gregorian count of days. */
  lemma {:induction false} GregorianCount(y: nat)
    ensures DaysOfYears(y) == 365 * y + y / 4 - y / 100 + y / 400
  {
    hide DaysOfMonths, LeapYear;
    if y > 0 {
      GregorianCount(y - 1);
      YearLength(y);
      LeapCount(y);
    }
  }

  lemma FourCenturies()
    ensures DaysOfYears(400) == 146097
  {
    hide DaysOfYears;
    GregorianCount(400);
  }

  /** The long and the short months, by the rule of the knuckles. */
  lemma MonthLengths(y: int, m: int)
    requires 1 <= m <= 12 && m != 2
    ensures DaysIn(y, m) == 30 + (m + m / 8) % 2
  {
  }

  /** Exactly the dates and times of that calendar in years 1 to 9999 are valid. */
  lemma ValidExactly(t: DateTime)
    ensures Valid(t) <==>
      && 1 <= t.year <= 9999 && 1 <= t.month <= 12 && 1 <= t.day
      && t.day <= (if t.month != 2 then 30 + (t.month + t.month / 8) % 2
                   else if t.year % 4 == 0 && (t.year % 100 != 0 || t.year % 400 == 0) then 29 else 28)
      && 0 <= t.hour <= 23 && 0 <= t.minute <= 59 && 0 <= t.second <= 59
  {
    if 1 <= t.month <= 12 && t.month != 2 {
      MonthLengths(t.year, t.month);
    }
  }
}
