/** iclock.py: one punch written in each of the line formats reads as the same punch. */
module AttlogFormats {
  import opened Text
  import opened TextLines
  import opened Times
  import opened Punches
  import opened PushIngest
  import opened Attlog
  import Json

  /** A piece that no separator of any format cuts. */
  predicate Solid(s: string) {
    s != [] && forall c :: c in s ==> !IsSpace(c) && c != ',' && c != '='
  }

  lemma SolidIsTrimmed(s: string)
    requires Solid(s)
    ensures Strip(s) == s
  {
    assert s[0] in s && s[|s| - 1] in s;
    StripTrims(s);
  }

  // ---------------------------------------------------------------------------
  // Words
  // ---------------------------------------------------------------------------

  lemma {:induction false} WordStops(w: string, rest: string)
    requires forall c :: c in w ==> !IsSpace(c)
    requires rest == [] || IsSpace(rest[0])
    ensures Word(w + rest) == w
  {
    if w == [] {
      assert w + rest == rest;
    } else {
      WordStops(w[1..], rest);
      assert (w + rest)[1..] == w[1..] + rest;
      assert w[0] in w;
    }
  }

  predicate Unbroken(s: string) {
    s != [] && forall c :: c in s ==> !IsSpace(c)
  }

  lemma WordThen(w: string, c: char, rest: string)
    requires Unbroken(w) && IsSpace(c)
    ensures Words(w + ([c] + rest)) == [w] + Words(rest)
  {
    var s := w + ([c] + rest);
    WordStops(w, [c] + rest);
    assert w[0] in w && s[0] == w[0];
    assert s[|w|..] == [c] + rest && ([c] + rest)[1..] == rest;
  }

  lemma OneWord(w: string)
    requires Unbroken(w)
    ensures Words(w) == [w]
  {
    WordStops(w, []);
    assert w + [] == w && w[0] in w;
    assert w[|w|..] == [];
  }

  // ---------------------------------------------------------------------------
  // Date and time of day
  // ---------------------------------------------------------------------------

  function DateItems(f: Format): Layout
    requires !f.Compact?
  {
    match f
    case Slashed => [Field(Year), Lit('/'), Field(Month), Lit('/'), Field(Day)]
    case DayFirst => [Field(Day), Lit('-'), Field(Month), Lit('-'), Field(Year)]
    case Dashed => [Field(Year), Lit('-'), Field(Month), Lit('-'), Field(Day)]
    case ToTheMinute => [Field(Year), Lit('-'), Field(Month), Lit('-'), Field(Day)]
  }

  function ClockItems(f: Format): Layout
    requires !f.Compact?
  {
    if f.ToTheMinute? then [Field(Hour), Lit(':'), Field(Minute)]
    else [Field(Hour), Lit(':'), Field(Minute), Lit(':'), Field(Second)]
  }

  predicate DatePunct(c: char) {
    c == '-' || c == '/' || c == ':'
  }

  lemma {:induction false} PrintJoin(a: Layout, b: Layout, t: Moment)
    ensures Print(a + b, t) == Print(a, t) + Print(b, t)
  {
    hide PrintItem;
    if a == [] {
      assert a + b == b;
    } else {
      PrintJoin(a[1..], b, t);
      assert (a + b)[1..] == a[1..] + b && (a + b)[0] == a[0];
      Json.Assoc(PrintItem(a[0], t), Print(a[1..], t), Print(b, t));
    }
  }

  lemma {:induction false} PrintIsSolid(l: Layout, t: Moment)
    requires NoBlanks(l)
    ensures Solid(Print(l, t))
  {
    if l[0].Field? {
      var p := PrintField(l[0].d, t);
      assert Digits(p, |p|);
    }
    if |l| > 1 {
      PrintIsSolid(l[1..], t);
    } else {
      assert Print(l[1..], t) == [];
    }
  }

  predicate NoBlanks(l: Layout) {
    l != [] && forall i :: 0 <= i < |l| ==> l[i].Field? || (l[i].Lit? && DatePunct(l[i].c))
  }

  lemma ItemsInTwo(f: Format)
    requires !f.Compact?
    ensures var a, b := DateItems(f), ClockItems(f);
      && Items(f) == a + ([Blank] + b) && NoBlanks(a) && NoBlanks(b)
      && |a| > 1 && a[1].Lit? && (a[1].c == '-' || a[1].c == '/') && |b| > 1 && b[1] == Lit(':')
  {
    match f
    case Slashed =>
    case DayFirst =>
    case Dashed =>
    case ToTheMinute =>
  }

  lemma BlankPrinted(l: Layout, t: Moment)
    ensures Print([Blank] + l, t) == " " + Print(l, t)
  {
    assert ([Blank] + l)[1..] == l;
  }

  /** A printed time but the compact one is a date, a blank and a time of day. */
  lemma PrintedInTwo(f: Format, t: Moment)
    requires !f.Compact?
    ensures var date, clock := Print(DateItems(f), t), Print(ClockItems(f), t);
      && Print(Items(f), t) == date + (" " + clock)
      && Solid(date) && Solid(clock)
      && ('-' in date || '/' in date) && ':' in clock
  {
    hide Items, DateItems, ClockItems, Print, Solid, NoBlanks;
    ItemsInTwo(f);
    var a, b := DateItems(f), ClockItems(f);
    PrintJoin(a, [Blank] + b, t);
    BlankPrinted(b, t);
    PrintIsSolid(a, t);
    PrintIsSolid(b, t);
    SeparatorShown(a, 1, t);
    SeparatorShown(b, 1, t);
  }

  lemma {:induction false} SeparatorShown(l: Layout, k: nat, t: Moment)
    requires k < |l| && l[k].Lit?
    ensures l[k].c in Print(l, t)
  {
    if k > 0 {
      SeparatorShown(l[1..], k - 1, t);
    }
  }

  lemma CompactIsSolid(t: Moment)
    ensures Solid(Print(Items(Compact), t))
    ensures '-' !in Print(Items(Compact), t) && ':' !in Print(Items(Compact), t)
  {
    PrintIsSolid(Items(Compact), t);
    FieldsAreDigits(Items(Compact), t);
  }

  lemma {:induction false} FieldsAreDigits(l: Layout, t: Moment)
    requires forall i :: 0 <= i < |l| ==> l[i].Field?
    ensures forall c :: c in Print(l, t) ==> IsDigit(c)
  {
    if l != [] {
      FieldsAreDigits(l[1..], t);
      var p := PrintField(l[0].d, t);
      assert Digits(p, |p|);
    }
  }

  lemma IntIsSolid(i: int)
    ensures Solid(IntText(i)) && (i >= 0 ==> '-' !in IntText(i))
  {
    IntTextIsPlain(i);
    if i >= 0 {
      DecimalReads(i);
    }
  }

  lemma DigitsAreSolid(s: string)
    requires AllDigits(s)
    ensures Solid(s)
  {
  }

  // ---------------------------------------------------------------------------
  // The record and the punch
  // ---------------------------------------------------------------------------

  /** What a reader reports about one punch, in texts. */
  datatype Report = Report(pin: string, time: string, status: string, verify: string, work: string)

  predicate Proper(r: Report) {
    Solid(r.pin) && Solid(r.status) && Solid(r.verify) && Solid(r.work)
  }

  function RowOf(r: Report, line: string, c: Context): Record {
    Row(c, r.pin, r.time, r.status, r.verify, r.work, line)
  }

  function SpaceLine(r: Report): string {
    r.pin + (" " + (r.time + (" " + (r.status + (" " + (r.verify + (" " + r.work)))))))
  }

  function TabLine(r: Report): string {
    r.pin + ("\t" + (r.time + ("\t" + (r.status + ("\t" + (r.verify + ("\t" + r.work)))))))
  }

  function CommaLine(r: Report): string {
    r.pin + ("," + (r.time + ("," + (r.status + ("," + (r.verify + ("," + r.work)))))))
  }

  function KeyedLine(r: Report): string {
    ("PIN=" + r.pin) + ("\t" + (("TIME=" + r.time) + ("\t" + (("STATUS=" + r.status)
      + ("\t" + (("VERIFY=" + r.verify) + ("\t" + ("WORKCODE=" + r.work))))))))
  }

  lemma NoTabNoTabRow(line: string, c: Context)
    requires '\t' !in line
    ensures TabRow(line, TabParts(Split(line, '\t')), c) == None
  {
    hide Strip;
    SplitWhole(line, '\t');
    assert [line][1..] == [];
    assert |TabParts([line])| <= 1;
  }

  lemma SpaceLineParses(r: Report, date: string, clock: string, c: Context)
    requires Proper(r) && Solid(date) && Solid(clock) && r.time == date + (" " + clock)
    requires ('-' in date || '/' in date) && ':' in clock
    ensures ParseLine(SpaceLine(r), c) == RowOf(r, SpaceLine(r), c)
  {
    hide Strip, Words, Kept, Split, TabParts, Pairs, FirstOf, CommaRow, FallbackRow, LooksKeyed;
    var line := SpaceLine(r);
    NotKeyed(line);
    NoTabNoTabRow(line, c);
    var tail := r.status + (" " + (r.verify + (" " + r.work)));
    assert line == r.pin + (" " + (date + (" " + (clock + (" " + tail)))));
    WordThen(r.pin, ' ', date + (" " + (clock + (" " + tail))));
    WordThen(date, ' ', clock + (" " + tail));
    WordThen(clock, ' ', tail);
    WordThen(r.status, ' ', r.verify + (" " + r.work));
    WordThen(r.verify, ' ', r.work);
    OneWord(r.work);
    var words := [r.pin, date, clock, r.status, r.verify, r.work];
    assert Words(line) == words;
    assert date + " " + clock == r.time;
    assert SpacedRow(line, words, c) == Some(RowOf(r, line, c));
  }

  lemma TabLineParses(r: Report, c: Context)
    requires Proper(r) && r.time != [] && Strip(r.time) == r.time && '\t' !in r.time && '=' !in r.time
    requires '-' in r.time || ':' in r.time || '-' !in r.status
    ensures ParseLine(TabLine(r), c) == RowOf(r, TabLine(r), c)
  {
    hide Strip, Words, Kept, Split, TabParts, Pairs, FirstOf, SpacedRow, CommaRow, FallbackRow, LooksKeyed;
    var line, fields := TabLine(r), [r.pin, r.time, r.status, r.verify, r.work];
    NotKeyed(line);
    SplitFive(r, '\t');
    SolidIsTrimmed(r.pin); SolidIsTrimmed(r.status); SolidIsTrimmed(r.verify); SolidIsTrimmed(r.work);
    TrimmedTabParts(fields);
    assert TabRow(line, fields, c) == Some(RowOf(r, line, c));
  }

  lemma SplitFive(r: Report, c: char)
    requires c !in r.pin && c !in r.time && c !in r.status && c !in r.verify && c !in r.work
    ensures Split(r.pin + ([c] + (r.time + ([c] + (r.status + ([c] + (r.verify + ([c] + r.work))))))), c)
         == [r.pin, r.time, r.status, r.verify, r.work]
  {
    hide Split;
    SplitWhole(r.work, c);
    SplitThen(r.verify, c, r.work);
    SplitThen(r.status, c, r.verify + ([c] + r.work));
    SplitThen(r.time, c, r.status + ([c] + (r.verify + ([c] + r.work))));
    SplitThen(r.pin, c, r.time + ([c] + (r.status + ([c] + (r.verify + ([c] + r.work))))));
  }

  lemma SplitThen(a: string, c: char, b: string)
    requires c !in a
    ensures Split(a + ([c] + b), c) == [a] + Split(b, c)
  {
    assert a + ([c] + b) == a + [c] + b;
    SplitJoin(a, c, b);
  }

  lemma {:induction false} TrimmedTabParts(fields: seq<string>)
    requires forall i :: 0 <= i < |fields| ==> Strip(fields[i]) == fields[i]
    ensures TabParts(fields) == fields
  {
    hide Strip;
    if fields != [] {
      assert forall i :: 0 <= i < |fields[1..]| ==> fields[1..][i] == fields[i + 1];
      TrimmedTabParts(fields[1..]);
      assert [fields[0]] + fields[1..] == fields;
    }
  }

  lemma {:induction false} TrimmedKept(fields: seq<string>)
    requires forall i :: 0 <= i < |fields| ==> fields[i] != [] && Strip(fields[i]) == fields[i]
    ensures Kept(fields) == fields
  {
    hide Strip;
    if fields != [] {
      assert forall i :: 0 <= i < |fields[1..]| ==> fields[1..][i] == fields[i + 1];
      TrimmedKept(fields[1..]);
      assert [fields[0]] + fields[1..] == fields;
    }
  }

  lemma CommaLineParses(r: Report, date: string, clock: string, c: Context)
    requires Proper(r) && Solid(date) && Solid(clock) && r.time == date + (" " + clock)
    requires ('-' in date || '/' in date) && Strip(r.time) == r.time
    ensures ParseLine(CommaLine(r), c) == RowOf(r, CommaLine(r), c)
  {
    hide Strip, Words, Kept, Split, TabParts, Pairs, FirstOf, FallbackRow, LooksKeyed;
    var line, fields := CommaLine(r), [r.pin, r.time, r.status, r.verify, r.work];
    NotKeyed(line);
    NoTabNoTabRow(line, c);
    SplitFive(r, ',');
    SolidIsTrimmed(r.pin); SolidIsTrimmed(r.status); SolidIsTrimmed(r.verify); SolidIsTrimmed(r.work);
    TrimmedKept(fields);
    CommaWords(r, date, clock);
    assert SpacedRow(line, Words(line), c) == None;
    assert CommaRow(line, fields, c) == Some(RowOf(r, line, c));
  }

  /** The blank inside the time cuts a comma line into two words, one too few for the spaced format. */
  lemma CommaWords(r: Report, date: string, clock: string)
    requires Proper(r) && Solid(date) && Solid(clock) && r.time == date + (" " + clock)
    ensures |Words(CommaLine(r))| == 2
  {
    hide Words;
    var tail := clock + ("," + (r.status + ("," + (r.verify + ("," + r.work)))));
    var head := r.pin + ("," + date);
    assert CommaLine(r) == head + (" " + tail);
    WordThen(head, ' ', tail);
    OneWord(tail);
  }

  // ---------------------------------------------------------------------------
  // Key-value lines
  // ---------------------------------------------------------------------------

  predicate IsKey(key: string) {
    forall c :: c in key ==> c != '=' && !('a' <= c <= 'z')
  }

  lemma {:induction false} EqualsAt(key: string, v: string)
    requires '=' !in key
    ensures CharAt(key + "=" + v, '=') == |key|
  {
    if key != [] {
      EqualsAt(key[1..], v);
      assert (key + "=" + v)[1..] == key[1..] + "=" + v;
    }
  }

  lemma PairOf(key: string, v: string, rest: seq<string>)
    requires IsKey(key)
    ensures Pairs([key + "=" + v] + rest) == [(key, v)] + Pairs(rest)
  {
    EqualsAt(key, v);
    var item := key + "=" + v;
    assert ([item] + rest)[1..] == rest;
    assert item[..|key|] == key && item[|key| + 1..] == v;
    assert forall i :: 0 <= i < |key| ==> key[i] in key;
    assert Upper(key) == key;
  }

  function KeyedPairs(r: Report): seq<(string, string)> {
    [("PIN", r.pin), ("TIME", r.time), ("STATUS", r.status), ("VERIFY", r.verify), ("WORKCODE", r.work)]
  }

  lemma KeyedWords(r: Report)
    requires Proper(r) && Solid(r.time)
    ensures Pairs(Words(KeyedLine(r))) == KeyedPairs(r)
  {
    hide Words, Pairs, KeyedPairs;
    KeyedWord("PIN=" + r.pin, "TIME=" + r.time, "STATUS=" + r.status, "VERIFY=" + r.verify, "WORKCODE=" + r.work);
    KeyedItems(r);
  }

  lemma KeyedItems(r: Report)
    ensures Pairs(["PIN=" + r.pin, "TIME=" + r.time, "STATUS=" + r.status, "VERIFY=" + r.verify, "WORKCODE=" + r.work])
         == KeyedPairs(r)
  {
    hide Pairs;
    var a, b, d, e, f := "PIN=" + r.pin, "TIME=" + r.time, "STATUS=" + r.status, "VERIFY=" + r.verify, "WORKCODE=" + r.work;
    assert "PIN" + "=" == "PIN=" && "TIME" + "=" == "TIME=" && "STATUS" + "=" == "STATUS=";
    assert "VERIFY" + "=" == "VERIFY=" && "WORKCODE" + "=" == "WORKCODE=";
    NoPairs();
    PairOf("WORKCODE", r.work, []);
    assert [f] + [] == [f];
    PairOf("VERIFY", r.verify, [f]);
    assert [e] + [f] == [e, f];
    PairOf("STATUS", r.status, [e, f]);
    assert [d] + [e, f] == [d, e, f];
    PairOf("TIME", r.time, [d, e, f]);
    assert [b] + [d, e, f] == [b, d, e, f];
    PairOf("PIN", r.pin, [b, d, e, f]);
    assert [a] + [b, d, e, f] == [a, b, d, e, f];
  }

  lemma NoPairs()
    ensures Pairs([]) == []
  {
  }

  lemma KeyedWord(a: string, b: string, d: string, e: string, f: string)
    requires Unbroken(a) && Unbroken(b) && Unbroken(d) && Unbroken(e) && Unbroken(f)
    ensures Words(a + ("\t" + (b + ("\t" + (d + ("\t" + (e + ("\t" + f)))))))) == [a, b, d, e, f]
  {
    hide Words, Unbroken;
    var s4 := e + ("\t" + f);
    var s3 := d + ("\t" + s4);
    var s2 := b + ("\t" + s3);
    WordThen(a, '\t', s2);
    WordThen(b, '\t', s3);
    WordThen(d, '\t', s4);
    WordThen(e, '\t', f);
    OneWord(f);
  }

  lemma ValueOfMore(ps: seq<(string, string)>, key: string, v: string)
    ensures forall k :: ValueOf(ps + [(key, v)], k) == if k == key then Some(v) else ValueOf(ps, k)
  {
    assert (ps + [(key, v)])[..|ps|] == ps;
  }

  lemma KeyedValues(r: Report)
    ensures var ps := KeyedPairs(r);
      && ValueOf(ps, "PIN") == Some(r.pin) && ValueOf(ps, "TIME") == Some(r.time) && ValueOf(ps, "STATUS") == Some(r.status)
      && ValueOf(ps, "VERIFY") == Some(r.verify) && ValueOf(ps, "WORKCODE") == Some(r.work)
  {
    hide ValueOf;
    assert |"PIN"| == 3 && |"TIME"| == 4 && |"STATUS"| == |"VERIFY"| == 6 && |"WORKCODE"| == 8;
    assert "STATUS"[0] != "VERIFY"[0];
    var one := [] + [("PIN", r.pin)];
    var two := one + [("TIME", r.time)];
    var three := two + [("STATUS", r.status)];
    var four := three + [("VERIFY", r.verify)];
    assert KeyedPairs(r) == four + [("WORKCODE", r.work)];
    ValueOfMore([], "PIN", r.pin);
    ValueOfMore(one, "TIME", r.time);
    ValueOfMore(two, "STATUS", r.status);
    ValueOfMore(three, "VERIFY", r.verify);
    ValueOfMore(four, "WORKCODE", r.work);
  }

  lemma KeyedLineParses(r: Report, c: Context)
    requires Proper(r) && Solid(r.time)
    ensures ParseLine(KeyedLine(r), c) == RowOf(r, KeyedLine(r), c)
  {
    hide Strip, Words, Kept, Split, TabParts, Pairs, ValueOf, TabRow, SpacedRow, CommaRow, FallbackRow, LooksKeyed;
    var line := KeyedLine(r);
    KeyedWords(r);
    KeyedValues(r);
    KeyedLooks(r);
    assert KeyedRow(line, c) == Some(RowOf(r, line, c));
  }

  lemma KeyedLooks(r: Report)
    ensures LooksKeyed(KeyedLine(r))
  {
    var up := Upper(KeyedLine(r));
    assert up[..4] == "PIN=";
  }

  // ---------------------------------------------------------------------------
  // Absent fields, and other names for them
  // ---------------------------------------------------------------------------

  predicate SolidOrEmpty(s: string) {
    s == [] || Solid(s)
  }

  lemma SolidOrEmptyIsTrimmed(s: string)
    requires SolidOrEmpty(s)
    ensures Strip(s) == s && '\t' !in s && '=' !in s
  {
    StripTrims(s);
    if s != [] {
      SolidIsTrimmed(s);
    }
  }

  /** An empty status, verify code or work code of a tab line reads as "0", "1" and "0". */
  lemma EmptyTabFieldsDefault(r: Report, c: Context)
    requires Solid(r.pin) && SolidOrEmpty(r.status) && SolidOrEmpty(r.verify) && SolidOrEmpty(r.work)
    requires r.time != [] && Strip(r.time) == r.time && '\t' !in r.time && '=' !in r.time && ('-' in r.time || ':' in r.time)
    ensures ParseLine(TabLine(r), c)
         == Row(c, r.pin, r.time, if r.status == [] then "0" else r.status, if r.verify == [] then "1" else r.verify,
                if r.work == [] then "0" else r.work, TabLine(r))
  {
    hide Strip, Words, Kept, Split, TabParts, Pairs, FirstOf, SpacedRow, CommaRow, FallbackRow, LooksKeyed;
    var line, fields := TabLine(r), [r.pin, r.time, r.status, r.verify, r.work];
    SolidIsTrimmed(r.pin);
    SolidOrEmptyIsTrimmed(r.status);
    SolidOrEmptyIsTrimmed(r.verify);
    SolidOrEmptyIsTrimmed(r.work);
    NotKeyed(line);
    SplitFive(r, '\t');
    TrimmedTabParts(fields);
  }

  /** A tab line that ends behind its time has status "0", verify code "1" and work code "0". */
  lemma ShortTabLine(pin: string, time: string, c: Context)
    requires Solid(pin) && time != [] && Strip(time) == time && '\t' !in time && '=' !in time
    ensures var line := pin + ("\t" + time); ParseLine(line, c) == Row(c, pin, time, "0", "1", "0", line)
  {
    hide Strip, Words, Kept, Split, TabParts, Pairs, FirstOf, SpacedRow, CommaRow, FallbackRow, LooksKeyed;
    var line, fields := pin + ("\t" + time), [pin, time];
    SolidIsTrimmed(pin);
    NotKeyed(line);
    SplitWhole(time, '\t');
    SplitThen(pin, '\t', time);
    assert [pin] + [time] == fields;
    TrimmedTabParts(fields);
  }

  /** So has a blank-separated one, */
  lemma ShortSpaceLine(pin: string, date: string, clock: string, c: Context)
    requires Solid(pin) && Solid(date) && Solid(clock) && ('-' in date || '/' in date) && ':' in clock
    ensures var line := pin + (" " + (date + (" " + clock)));
      ParseLine(line, c) == Row(c, pin, date + " " + clock, "0", "1", "0", line)
  {
    hide Strip, Words, Kept, Split, TabParts, Pairs, FirstOf, CommaRow, FallbackRow, LooksKeyed;
    var line := pin + (" " + (date + (" " + clock)));
    NotKeyed(line);
    NoTabNoTabRow(line, c);
    WordThen(pin, ' ', date + (" " + clock));
    WordThen(date, ' ', clock);
    OneWord(clock);
    assert Words(line) == [pin, date, clock];
  }

  /** and a comma line. */
  lemma ShortCommaLine(pin: string, date: string, clock: string, c: Context)
    requires Solid(pin) && Solid(date) && Solid(clock) && ('-' in date || '/' in date || ':' in clock)
    ensures var line := pin + ("," + (date + (" " + clock)));
      ParseLine(line, c) == Row(c, pin, date + " " + clock, "0", "1", "0", line)
  {
    hide Strip, Words, Kept, Split, TabParts, Pairs, FirstOf, FallbackRow, LooksKeyed;
    var time := date + (" " + clock);
    var line := pin + ("," + time);
    NotKeyed(line);
    NoTabNoTabRow(line, c);
    SplitWhole(time, ',');
    SplitThen(pin, ',', time);
    assert [pin] + [time] == [pin, time];
    SolidIsTrimmed(pin);
    assert date[0] in date && clock[|clock| - 1] in clock;
    StripTrims(time);
    TrimmedKept([pin, time]);
    var head := pin + ("," + date);
    assert line == head + (" " + clock);
    WordThen(head, ' ', clock);
    OneWord(clock);
    assert SpacedRow(line, Words(line), c) == None;
    assert time == date + " " + clock;
  }

  /** Keys are read in any case. */
  lemma AnyCasePair(key: string, v: string, rest: seq<string>)
    requires '=' !in key
    ensures Pairs([key + "=" + v] + rest) == [(Upper(key), v)] + Pairs(rest)
  {
    EqualsAt(key, v);
    var item := key + "=" + v;
    assert ([item] + rest)[1..] == rest;
    assert item[..|key|] == key && item[|key| + 1..] == v;
  }

  /** So a line in small letters reads like one in capitals. */
  lemma SmallKeysAreRead(pin: string, time: string, c: Context)
    requires Solid(pin) && Solid(time)
    ensures var line := ("pin=" + pin) + ("\t" + ("time=" + time)); ParseLine(line, c) == Row(c, pin, time, "0", "1", "0", line)
  {
    hide Strip, Words, Kept, Split, TabParts, Pairs, ValueOf, TabRow, SpacedRow, CommaRow, FallbackRow, LooksKeyed, Upper;
    var a, b := "pin=" + pin, "time=" + time;
    var line := a + ("\t" + b);
    WordThen(a, '\t', b);
    OneWord(b);
    assert [a] + [b] == [a, b] && [b] + [] == [b];
    assert "pin" + "=" == "pin=" && "time" + "=" == "time=";
    SmallKeys();
    AnyCasePair("time", time, []);
    NoPairs();
    AnyCasePair("pin", pin, [b]);
    var rest := pin + ("\t" + b);
    assert line == "pin=" + rest;
    UpperJoin("pin=", rest);
    ContainsAt("", "PIN=", Upper(rest));
    assert "" + "PIN=" + Upper(rest) == "PIN=" + Upper(rest);
    var pairs := [("PIN", pin), ("TIME", time)];
    assert Pairs(Words(line)) == pairs;
    AliasedValues("PIN", "TIME", pin, time);
    SmallLooks(line);
    assert KeyedRow(line, c) == Some(Row(c, pin, time, "0", "1", "0", line));
  }

  lemma SmallLooks(line: string)
    requires Contains(Upper(line), "PIN=")
    ensures LooksKeyed(line)
  {
  }

  lemma SmallKeys()
    ensures Upper("pin") == "PIN" && Upper("time") == "TIME" && Upper("pin=") == "PIN="
  {
  }

  /** The names a key-value line may use for its PIN and for its time. */
  lemma KeysHaveAliases(pin: string, time: string, c: Context)
    requires Solid(pin) && Solid(time)
    ensures forall k, t ::
      k in ["PIN", "USERID", "ID"] && t in ["TIME", "TIMESTAMP", "DATETIME"] && !(k != "PIN" && t == "TIMESTAMP") ==>
        var line := (k + "=" + pin) + ("\t" + (t + "=" + time));
        ParseLine(line, c) == Row(c, pin, time, "0", "1", "0", line)
  {
    hide ParseLine;
    forall k, t | k in ["PIN", "USERID", "ID"] && t in ["TIME", "TIMESTAMP", "DATETIME"] && !(k != "PIN" && t == "TIMESTAMP")
      ensures var line := (k + "=" + pin) + ("\t" + (t + "=" + time));
        ParseLine(line, c) == Row(c, pin, time, "0", "1", "0", line)
    {
      AliasedLine(k, t, pin, time, c);
    }
  }

  /** The verify code may come under its longer key. */
  lemma VerifyTypeIsRead(pin: string, time: string, verify: string, c: Context)
    requires Solid(pin) && Solid(time) && Solid(verify)
    ensures var line := ("PIN=" + pin) + ("\t" + (("TIME=" + time) + ("\t" + ("VERIFYTYPE=" + verify))));
      ParseLine(line, c) == Row(c, pin, time, "0", verify, "0", line)
  {
    hide Strip, Words, Kept, Split, TabParts, Pairs, ValueOf, TabRow, SpacedRow, CommaRow, FallbackRow, LooksKeyed;
    var a, b, d := "PIN=" + pin, "TIME=" + time, "VERIFYTYPE=" + verify;
    var line := a + ("\t" + (b + ("\t" + d)));
    WordThen(a, '\t', b + ("\t" + d));
    WordThen(b, '\t', d);
    OneWord(d);
    assert [a] + ([b] + [d]) == [a, b, d];
    var pairs := [("PIN", pin), ("TIME", time), ("VERIFYTYPE", verify)];
    ThreePairs(pin, time, verify);
    ThreeValues(pin, time, verify);
    VerifyTypeLooks(pin, b + ("\t" + d));
    assert KeyedRow(line, c) == Some(Row(c, pin, time, "0", verify, "0", line));
  }

  lemma VerifyTypeLooks(pin: string, rest: string)
    ensures LooksKeyed(("PIN=" + pin) + ("\t" + rest))
  {
    var up := Upper(("PIN=" + pin) + ("\t" + rest));
    assert up[..4] == "PIN=";
  }

  lemma ThreePairs(pin: string, time: string, verify: string)
    ensures Pairs(["PIN=" + pin, "TIME=" + time, "VERIFYTYPE=" + verify])
         == [("PIN", pin), ("TIME", time), ("VERIFYTYPE", verify)]
  {
    hide Pairs;
    var a, b, d := "PIN=" + pin, "TIME=" + time, "VERIFYTYPE=" + verify;
    assert "PIN" + "=" == "PIN=" && "TIME" + "=" == "TIME=" && "VERIFYTYPE" + "=" == "VERIFYTYPE=";
    NoPairs();
    PairOf("VERIFYTYPE", verify, []);
    assert [d] + [] == [d];
    PairOf("TIME", time, [d]);
    assert [b] + [d] == [b, d];
    PairOf("PIN", pin, [b, d]);
    assert [a] + [b, d] == [a, b, d];
  }

  lemma ThreeValues(pin: string, time: string, verify: string)
    requires Solid(pin) && Solid(time)
    ensures var pairs := [("PIN", pin), ("TIME", time), ("VERIFYTYPE", verify)];
      && FirstOf(pairs, ["PIN", "USERID", "ID"]) == pin && FirstOf(pairs, ["TIME", "TIMESTAMP", "DATETIME"]) == time
      && GetOr(pairs, "STATUS", "0") == "0" && GetOr(pairs, "VERIFY", GetOr(pairs, "VERIFYTYPE", "1")) == verify
      && GetOr(pairs, "WORKCODE", "0") == "0"
  {
    hide ValueOf;
    KeyTexts();
    assert |"VERIFYTYPE"| == 10 && |"VERIFY"| == 6 && |"STATUS"| == 6 && |"WORKCODE"| == 8;
    var one, two := [("PIN", pin)], [("PIN", pin), ("TIME", time)];
    ValueOfNothing();
    ValueOfMore([], "PIN", pin);
    ValueOfMore(one, "TIME", time);
    ValueOfMore(two, "VERIFYTYPE", verify);
    assert [] + [("PIN", pin)] == one && one + [("TIME", time)] == two;
    var pairs := two + [("VERIFYTYPE", verify)];
    assert pairs == [("PIN", pin), ("TIME", time), ("VERIFYTYPE", verify)];
    AliasOf(pairs, "PIN", "USERID", "ID");
    AliasOf(pairs, "TIME", "TIMESTAMP", "DATETIME");
  }

  lemma AliasedLine(k: string, t: string, pin: string, time: string, c: Context)
    requires Solid(pin) && Solid(time)
    requires k in ["PIN", "USERID", "ID"] && t in ["TIME", "TIMESTAMP", "DATETIME"] && !(k != "PIN" && t == "TIMESTAMP")
    ensures var line := (k + "=" + pin) + ("\t" + (t + "=" + time));
      ParseLine(line, c) == Row(c, pin, time, "0", "1", "0", line)
  {
    hide Strip, Words, Kept, Split, TabParts, Pairs, ValueOf, TabRow, SpacedRow, CommaRow, FallbackRow, LooksKeyed, Contains, Upper;
    var a, b := k + "=" + pin, t + "=" + time;
    var line := a + ("\t" + b);
    KeyIsUnbroken(k, pin);
    KeyIsUnbroken(t, time);
    WordThen(a, '\t', b);
    OneWord(b);
    assert [a] + [b] == [a, b];
    PairOf(t, time, []);
    NoPairs();
    assert [b] + [] == [b];
    PairOf(k, pin, [b]);
    var pairs := [(k, pin), (t, time)];
    assert Pairs(Words(line)) == pairs;
    AliasedLooks(k, t, pin, time);
    AliasedValues(k, t, pin, time);
  }

  lemma KeyIsUnbroken(k: string, v: string)
    requires Solid(v) && k in ["PIN", "USERID", "ID", "TIME", "TIMESTAMP", "DATETIME"]
    ensures Unbroken(k + "=" + v) && IsKey(k)
  {
    assert forall c :: c in k ==> 'A' <= c <= 'Z';
  }

  lemma AliasedValues(k: string, t: string, pin: string, time: string)
    requires Solid(pin) && Solid(time)
    requires k in ["PIN", "USERID", "ID"] && t in ["TIME", "TIMESTAMP", "DATETIME"]
    ensures var pairs := [(k, pin), (t, time)];
      && FirstOf(pairs, ["PIN", "USERID", "ID"]) == pin && FirstOf(pairs, ["TIME", "TIMESTAMP", "DATETIME"]) == time
      && GetOr(pairs, "STATUS", "0") == "0" && GetOr(pairs, "VERIFY", GetOr(pairs, "VERIFYTYPE", "1")) == "1"
      && GetOr(pairs, "WORKCODE", "0") == "0"
  {
    hide ValueOf;
    var pairs := [(k, pin), (t, time)];
    KeyTexts();
    ValueOfMore([(k, pin)], t, time);
    ValueOfMore([], k, pin);
    ValueOfNothing();
    assert [] + [(k, pin)] == [(k, pin)] && [(k, pin)] + [(t, time)] == pairs;
    forall key
      ensures ValueOf(pairs, key) == if key == t then Some(time) else if key == k then Some(pin) else None
    {
    }
    assert FirstOf(pairs, []) == [];
    AliasOf(pairs, "PIN", "USERID", "ID");
    AliasOf(pairs, "TIME", "TIMESTAMP", "DATETIME");
  }

  lemma ValueOfNothing()
    ensures forall k :: ValueOf([], k) == None
  {
  }

  lemma AliasOf(pairs: seq<(string, string)>, x: string, y: string, z: string)
    ensures FirstOf(pairs, [x, y, z]) ==
      if ValueOf(pairs, x).Some? && ValueOf(pairs, x).value != [] then ValueOf(pairs, x).value
      else if ValueOf(pairs, y).Some? && ValueOf(pairs, y).value != [] then ValueOf(pairs, y).value
      else if ValueOf(pairs, z).Some? then ValueOf(pairs, z).value else []
  {
    hide ValueOf;
    assert [x, y, z][1..] == [y, z] && [y, z][1..] == [z] && [z][1..] == [];
    assert FirstOf(pairs, []) == [];
    assert FirstOf(pairs, [z]) == if ValueOf(pairs, z).Some? then ValueOf(pairs, z).value else [];
    assert FirstOf(pairs, [y, z]) == if ValueOf(pairs, y).Some? && ValueOf(pairs, y).value != [] then ValueOf(pairs, y).value
      else FirstOf(pairs, [z]);
  }

  /** The key names are all different texts. */
  lemma KeyTexts()
    ensures "PIN" != "USERID" && "PIN" != "ID" && "USERID" != "ID" && "PIN" != "TIME" && "PIN" != "TIMESTAMP" && "PIN" != "DATETIME"
    ensures "USERID" != "TIME" && "USERID" != "TIMESTAMP" && "USERID" != "DATETIME" && "ID" != "TIME" && "ID" != "TIMESTAMP"
    ensures "ID" != "DATETIME" && "TIME" != "TIMESTAMP" && "TIME" != "DATETIME" && "TIMESTAMP" != "DATETIME"
    ensures "STATUS" != "PIN" && "STATUS" != "USERID" && "STATUS" != "ID" && "STATUS" != "TIME" && "STATUS" != "TIMESTAMP"
    ensures "STATUS" != "DATETIME" && "VERIFY" != "PIN" && "VERIFY" != "USERID" && "VERIFY" != "ID" && "VERIFY" != "TIME"
    ensures "VERIFY" != "TIMESTAMP" && "VERIFY" != "DATETIME" && "VERIFYTYPE" != "PIN" && "VERIFYTYPE" != "USERID"
    ensures "VERIFYTYPE" != "ID" && "VERIFYTYPE" != "TIME" && "VERIFYTYPE" != "TIMESTAMP" && "VERIFYTYPE" != "DATETIME"
    ensures "WORKCODE" != "PIN" && "WORKCODE" != "USERID" && "WORKCODE" != "ID" && "WORKCODE" != "TIME"
    ensures "WORKCODE" != "TIMESTAMP" && "WORKCODE" != "DATETIME"
  {
    assert |"PIN"| == 3 && |"USERID"| == 6 && |"ID"| == 2 && |"TIME"| == 4 && |"TIMESTAMP"| == 9 && |"DATETIME"| == 8;
    assert |"STATUS"| == 6 && |"VERIFY"| == 6 && |"VERIFYTYPE"| == 10 && |"WORKCODE"| == 8;
    assert "STATUS"[0] == 'S' && "VERIFY"[0] == 'V' && "USERID"[0] == 'U' && "WORKCODE"[0] == 'W' && "DATETIME"[0] == 'D';
  }

  lemma {:induction false} ContainsAt(a: string, part: string, b: string)
    ensures Contains(a + part + b, part)
    decreases |a|
  {
    var s := a + part + b;
    if a == [] {
      assert part <= s;
    } else {
      ContainsAt(a[1..], part, b);
      assert s[1..] == a[1..] + part + b;
    }
  }

  lemma UpperJoin(a: string, b: string)
    ensures Upper(a + b) == Upper(a) + Upper(b)
  {
  }

  lemma AliasedLooks(k: string, t: string, pin: string, time: string)
    requires k in ["PIN", "USERID", "ID"] && t in ["TIME", "TIMESTAMP", "DATETIME"] && !(k != "PIN" && t == "TIMESTAMP")
    ensures LooksKeyed((k + "=" + pin) + ("\t" + (t + "=" + time)))
  {
    hide Contains, Upper;
    var line := (k + "=" + pin) + ("\t" + (t + "=" + time));
    if k == "PIN" {
      var rest := pin + ("\t" + (t + "=" + time));
      assert line == "PIN=" + rest;
      UpperJoin("PIN=", rest);
      CapitalKeys();
      ContainsAt("", "PIN=", Upper(rest));
      assert "" + "PIN=" + Upper(rest) == "PIN=" + Upper(rest);
    } else {
      var before := if t == "TIME" then k + "=" + pin + "\t" else k + "=" + pin + "\tDATE";
      assert line == before + ("TIME=" + time);
      UpperJoin(before, "TIME=" + time);
      UpperJoin("TIME=", time);
      CapitalKeys();
      ContainsAt(Upper(before), "TIME=", Upper(time));
      assert Upper(before) + ("TIME=" + Upper(time)) == Upper(before) + "TIME=" + Upper(time);
    }
  }

  lemma CapitalKeys()
    ensures Upper("PIN=") == "PIN=" && Upper("TIME=") == "TIME="
  {
  }

  // ---------------------------------------------------------------------------
  // All formats agree
  // ---------------------------------------------------------------------------

  /** The report of a punch at `t`, with the time printed in format `f`. */
  function ReportOf(pin: string, f: Format, t: Moment, status: int, verify: int, work: string): Report {
    Report(pin, Print(Items(f), t), IntText(status), IntText(verify), work)
  }

  /** The punch it stands for; the line is kept as its payload. */
  function PunchOf(pin: string, f: Format, t: Moment, status: int, verify: int, work: string, line: string, c: Context): Punch {
    Punch(
      if Strip(Serial(c)) == [] then "UNKNOWN" else Strip(Serial(c)), pin, Precise(f, t), status, Some(verify), Some(work),
      if StartsWith(c.nameOf(pin), "User ") then None else Some(c.nameOf(pin)), None, Some(line))
  }

  lemma RowToPunch(pin: string, f: Format, t: Moment, status: int, verify: int, work: string, line: string, c: Context)
    requires AllDigits(pin) && AllDigits(work) && line != []
    ensures ToPunch(RowOf(ReportOf(pin, f, t, status, verify, work), line, c))
         == Some(PunchOf(pin, f, t, status, verify, work, line, c))
  {
    hide Print, Strip, PyInt, IntText;
    DigitsAreWireField(pin);
    PrintedTimeIsRead(f, t);
    FormatsFielded(f);
    PrintedEnds(Items(f), t);
    Text.IntReads(status);
    Text.IntReads(verify);
    IntTextIsPlain(status);
    IntTextIsPlain(verify);
  }

  lemma TimeIsProper(f: Format, t: Moment)
    ensures var time := Print(Items(f), t);
      && time != [] && Strip(time) == time && '\t' !in time && '=' !in time
      && (!f.Compact? ==> '-' in time || ':' in time) && (f.Compact? ==> Solid(time))
  {
    hide Print, Strip, Items, DateItems, ClockItems, Fielded;
    FormatsFielded(f);
    PrintedEnds(Items(f), t);
    PrintedIsAccepted(Items(f), t);
    if f.Compact? {
      CompactIsSolid(t);
    } else {
      PrintedInTwo(f, t);
      var date, clock := Print(DateItems(f), t), Print(ClockItems(f), t);
      assert '\t' !in date && '\t' !in clock;
    }
  }

  lemma ReportIsProper(pin: string, f: Format, t: Moment, status: int, verify: int, work: string)
    requires AllDigits(pin) && AllDigits(work)
    ensures var r := ReportOf(pin, f, t, status, verify, work);
      && Proper(r) && r.time != [] && Strip(r.time) == r.time && '\t' !in r.time && '=' !in r.time
      && (status >= 0 ==> '-' !in r.status) && (!f.Compact? ==> '-' in r.time || ':' in r.time)
      && (f.Compact? ==> Solid(r.time))
  {
    hide Print, Strip, IntText, Solid, Items, AllDigits;
    TimeIsProper(f, t);
    DigitsAreSolid(pin);
    DigitsAreSolid(work);
    IntIsSolid(status);
    IntIsSolid(verify);
  }

  // ---------------------------------------------------------------------------
  // The one combination that is not read
  // ---------------------------------------------------------------------------

  lemma {:induction false} CountJoin(a: string, b: string, c: char)
    ensures Count(a + b, c) == Count(a, c) + Count(b, c)
  {
    if a == [] {
      assert a + b == b;
    } else {
      CountJoin(a[1..], b, c);
      assert (a + b)[1..] == a[1..] + b;
    }
  }

  lemma NoneToCount(s: string, c: char)
    requires c !in s
    ensures Count(s, c) == 0
  {
    CountDropsPlain(s, |s|, c);
    assert s[|s|..] == [];
  }

  lemma DashedDashes()
    ensures Literals(Items(Dashed), '-') == 2
  {
  }

  lemma SlashedDashes()
    ensures Literals(Items(Slashed), '-') == 0
  {
  }

  lemma MinuteDashes()
    ensures Literals(Items(ToTheMinute), '-') == 2
  {
  }

  lemma DayFirstDashes()
    ensures Literals(Items(DayFirst), '-') == 2
  {
  }

  lemma CompactDashes()
    ensures Literals(Items(Compact), '-') == 0
  {
  }

  /** Every format has two dashes or none. */
  lemma DashLiterals(f: Format)
    ensures Literals(Items(f), '-') != 1
  {
    hide Literals, Items;
    DashedDashes();
    SlashedDashes();
    MinuteDashes();
    DayFirstDashes();
    CompactDashes();
  }

  lemma OneDashIsNoTime(s: string, f: Format)
    requires Count(s, '-') == 1
    ensures Strptime(f, s) == None
  {
    hide Items, Literals;
    DashLiterals(f);
    NoneToCount([], '-');
    if Strptime(f, s).Some? {
      MatchCounts(Items(f), s, EPOCH, '-');
    }
  }

  lemma {:induction false} OneDashFitsNoFormat(fs: seq<Format>, s: string)
    requires Count(s, '-') == 1
    ensures FirstFormat(fs, s) == None
  {
    hide Strptime;
    if fs != [] {
      OneDashIsNoTime(s, fs[0]);
      OneDashFitsNoFormat(fs[1..], s);
    }
  }

  lemma CompactThenMinus(t: Moment, status: int)
    requires status < 0
    ensures ParseTime(Print(Items(Compact), t) + " " + IntText(status)) == None
  {
    hide Print, Decimal, FirstFormat, Items, Strip, Count;
    var time, digits := Print(Items(Compact), t), Decimal(-status);
    var s := time + (" " + ("-" + digits));
    CompactIsSolid(t);
    DecimalReads(-status);
    FormatsFielded(Compact);
    PrintedEnds(Items(Compact), t);
    CountJoin(time, " " + ("-" + digits), '-');
    CountJoin(" ", "-" + digits, '-');
    CountJoin("-", digits, '-');
    NoneToCount(time, '-');
    NoneToCount(" ", '-');
    NoneToCount(digits, '-');
    OneDash();
    StripTrims(s);
    assert digits[|digits| - 1] in digits;
    assert s[|s| - 1] == digits[|digits| - 1] && s[0] == time[0];
    assert s == time + " " + IntText(status);
    OneDashFitsNoFormat(TIME_FORMATS, s);
  }

  lemma OneDash()
    ensures Count("-", '-') == 1
  {
    assert "-"[1..] == [];
  }

  /** A negative status after a compact time is taken for a time of day, and the punch is dropped. */
  lemma CompactBeforeMinusIsDropped(r: Report, t: Moment, status: int, c: Context)
    requires Proper(r) && r.time == Print(Items(Compact), t) && r.status == IntText(status) && status < 0
    ensures ToPunch(ParseLine(TabLine(r), c)) == None
  {
    hide Print, Items, Strip, Words, Kept, Split, TabParts, Pairs, FirstOf, SpacedRow, CommaRow, FallbackRow, LooksKeyed, ParseTime;
    var line, fields := TabLine(r), [r.pin, r.time, r.status, r.verify, r.work];
    CompactIsSolid(t);
    NotKeyed(line);
    SplitFive(r, '\t');
    SolidIsTrimmed(r.pin); SolidIsTrimmed(r.time); SolidIsTrimmed(r.status); SolidIsTrimmed(r.verify); SolidIsTrimmed(r.work);
    TrimmedTabParts(fields);
    CompactThenMinus(t, status);
    assert TabRow(line, fields, c) == Some(Row(c, r.pin, r.time + " " + r.status, r.status, r.verify, r.work, line));
  }

  // ---------------------------------------------------------------------------
  // Times a line format cannot carry
  // ---------------------------------------------------------------------------

  /** What the fallback makes of a line: the whole line for a PIN, and the server's clock for a time. */
  function Invented(line: string, c: Context): Punch {
    Punch(
      if Strip(Serial(c)) == [] then "UNKNOWN" else Strip(Serial(c)), line, c.now, 0, Some(1), Some("0"),
      if StartsWith(c.nameOf(line), "User ") then None else Some(c.nameOf(line)), None, Some(line))
  }

  lemma ShortIntegers()
    ensures AsInt(Some("0")) == Some(0) && AsInt(Some("1")) == Some(1)
  {
    Text.IntReads(0);
    Text.IntReads(1);
    assert IntText(0) == "0" && IntText(1) == "1";
  }

  lemma FallbackInvents(line: string, c: Context)
    requires line != [] && Strip(line) == line
    ensures ToPunch(FallbackRow(line, [line], c)) == Some(Invented(line, c))
  {
    hide Print, Strip, PyInt, AsInt;
    PrintedTimeIsRead(Dashed, c.now);
    FormatsFielded(Dashed);
    PrintedEnds(Items(Dashed), c.now);
    ShortIntegers();
  }

  lemma JoinedIsTrimmed(a: string, b: string, line: string)
    requires Unbroken(a) && Unbroken(b) && a <= line && |b| <= |line| && line[|line| - |b|..] == b
    ensures line != [] && Strip(line) == line
  {
    assert a[0] in a && b[|b| - 1] in b;
    assert line[0] == a[0] && line[|line| - 1] == b[|b| - 1];
    StripTrims(line);
  }

  /** A line that fits none of the first four formats. */
  lemma NothingFits(line: string, c: Context)
    requires line != [] && Strip(line) == line && '\t' !in line && '=' !in line
    requires SpacedRow(line, Words(line), c) == None && CommaRow(line, Kept(Split(line, ',')), c) == None
    ensures ParseLine(line, c) == FallbackRow(line, [line], c)
  {
    hide Strip, Words, Kept, Split, TabParts, SpacedRow, CommaRow, KeyedRow, FallbackRow, LooksKeyed;
    OneTabPart(line, c);
    NotKeyed(line);
    NoKeyedRow(line, c);
  }

  lemma OneTabPart(line: string, c: Context)
    requires line != [] && Strip(line) == line && '\t' !in line
    ensures TabParts(Split(line, '\t')) == [line] && TabRow(line, [line], c) == None
  {
    hide Strip;
    SplitWhole(line, '\t');
    assert [line][1..] == [] && TabParts([line]) == [line];
  }

  lemma NoKeyedRow(line: string, c: Context)
    requires !LooksKeyed(line)
    ensures KeyedRow(line, c) == None
  {
  }

  predicate NoSeparators(s: string) {
    '-' !in s && '/' !in s && ':' !in s
  }

  lemma BareTimeInSpaceLine(r: Report, c: Context)
    requires Proper(r) && Solid(r.time) && NoSeparators(r.time)
    ensures ParseLine(SpaceLine(r), c) == FallbackRow(SpaceLine(r), [SpaceLine(r)], c)
    ensures SpaceLine(r) != [] && Strip(SpaceLine(r)) == SpaceLine(r)
  {
    hide Strip, Words, Kept, Split, CommaRow;
    var line := SpaceLine(r);
    JoinedIsTrimmed(r.pin, r.work, line);
    WordThen(r.pin, ' ', r.time + (" " + (r.status + (" " + (r.verify + (" " + r.work))))));
    WordThen(r.time, ' ', r.status + (" " + (r.verify + (" " + r.work))));
    assert Words(line)[1] == r.time;
    SplitWhole(line, ',');
    KeptOne(line);
    OneCommaPart(line, c);
    NothingFits(line, c);
  }

  lemma OneCommaPart(line: string, c: Context)
    ensures CommaRow(line, [line], c) == None
  {
  }

  lemma BareTimeInCommaLine(r: Report, c: Context)
    requires Proper(r) && Solid(r.time) && NoSeparators(r.time)
    ensures ParseLine(CommaLine(r), c) == FallbackRow(CommaLine(r), [CommaLine(r)], c)
    ensures CommaLine(r) != [] && Strip(CommaLine(r)) == CommaLine(r)
  {
    hide Strip, Words, Kept, Split, SpacedRow;
    var line := CommaLine(r);
    JoinedIsTrimmed(r.pin, r.work, line);
    OneWord(line);
    OneSpacedPart(line, c);
    SplitFive(r, ',');
    SolidIsTrimmed(r.pin); SolidIsTrimmed(r.time); SolidIsTrimmed(r.status); SolidIsTrimmed(r.verify); SolidIsTrimmed(r.work);
    TrimmedKept([r.pin, r.time, r.status, r.verify, r.work]);
    NothingFits(line, c);
  }

  lemma OneSpacedPart(line: string, c: Context)
    ensures SpacedRow(line, [line], c) == None
  {
  }

  lemma {:induction false} CountPositive(s: string, c: char)
    requires c in s
    ensures Count(s, c) > 0
  {
    if s[0] != c {
      assert s == [s[0]] + s[1..];
      CountPositive(s[1..], c);
    }
  }

  lemma ColonLiterals(f: Format)
    requires !f.Compact?
    ensures Literals(Items(f), ':') > 0
  {
    hide Items;
    ColonStands(f);
    assert Lit(':') in Items(f);
  }

  lemma ColonStands(f: Format)
    requires !f.Compact?
    ensures |Items(f)| > 7 && Items(f)[7] == Lit(':')
  {
  }

  lemma CompactLiterals(c: char)
    ensures Literals(Items(Compact), c) == 0
  {
  }

  /** A date with no time of day fits none of the formats. */
  lemma DateIsNoTime(date: string, g: Format)
    requires ':' !in date && ('-' in date || '/' in date)
    ensures Strptime(g, date) == None
  {
    hide Items, Literals, MatchFrom;
    var c := if '-' in date then '-' else '/';
    CountPositive(date, c);
    NoneToCount(date, ':');
    NoneToCount([], c);
    NoneToCount([], ':');
    CompactLiterals(c);
    if !g.Compact? {
      ColonLiterals(g);
    }
    if MatchFrom(Items(g), date, EPOCH).Some? {
      MatchCounts(Items(g), date, EPOCH, if g.Compact? then c else ':');
    }
  }

  lemma {:induction false} DateFitsNoFormat(fs: seq<Format>, date: string)
    requires ':' !in date && ('-' in date || '/' in date)
    ensures FirstFormat(fs, date) == None
  {
    hide Strptime;
    if fs != [] {
      DateIsNoTime(date, fs[0]);
      DateFitsNoFormat(fs[1..], date);
    }
  }

  lemma DatesHaveNoColon(f: Format, t: Moment)
    requires !f.Compact?
    ensures ':' !in Print(DateItems(f), t)
  {
    var l := DateItems(f);
    assert forall i :: 0 <= i < |l| ==> l[i] != Lit(':') && !l[i].Blank?;
    NotPrinted(l, ':', t);
  }

  lemma {:induction false} NotPrinted(l: Layout, c: char, t: Moment)
    requires !IsDigit(c) && forall i :: 0 <= i < |l| ==> l[i] != Lit(c) && !l[i].Blank?
    ensures c !in Print(l, t)
  {
    if l != [] {
      assert forall i :: 0 <= i < |l[1..]| ==> l[1..][i] == l[i + 1];
      NotPrinted(l[1..], c, t);
      if l[0].Field? {
        var p := PrintField(l[0].d, t);
        assert Digits(p, |p|);
      }
    }
  }

  lemma NoPair(item: string, rest: seq<string>)
    requires '=' !in item
    ensures Pairs([item] + rest) == Pairs(rest)
  {
    assert ([item] + rest)[1..] == rest;
    NoEquals(item);
  }

  lemma {:induction false} NoEquals(item: string)
    requires '=' !in item
    ensures CharAt(item, '=') == |item|
  {
    if item != [] {
      assert item == [item[0]] + item[1..];
      NoEquals(item[1..]);
    }
  }

  /** A blank in the time leaves a key-value line with the date alone. */
  lemma SpacedKeyedPairs(r: Report, date: string, clock: string)
    requires Proper(r) && Solid(date) && Solid(clock) && r.time == date + (" " + clock)
    ensures Pairs(Words(KeyedLine(r))) == KeyedPairs(r.(time := date))
  {
    hide Words, Pairs, KeyedPairs;
    var a, b, d, e, f := "PIN=" + r.pin, "TIME=" + date, "STATUS=" + r.status, "VERIFY=" + r.verify, "WORKCODE=" + r.work;
    assert KeyedLine(r) == a + ("\t" + (b + (" " + (clock + ("\t" + (d + ("\t" + (e + ("\t" + f))))))))) by {
      assert "TIME=" + (date + (" " + clock)) == b + (" " + clock);
      Json.Assoc(b, " " + clock, "\t" + (d + ("\t" + (e + ("\t" + f)))));
      Json.Assoc(" ", clock, "\t" + (d + ("\t" + (e + ("\t" + f)))));
    }
    SixWords(a, b, clock, d, e, f);
    KeyedItems(r.(time := date));
    SkipThird(a, b, clock, [d, e, f]);
    assert [a, b] + ([clock] + [d, e, f]) == [a, b, clock, d, e, f];
    assert [a, b] + [d, e, f] == [a, b, d, e, f];
  }

  lemma SixWords(a: string, b: string, clock: string, d: string, e: string, f: string)
    requires Unbroken(a) && Unbroken(b) && Unbroken(clock) && Unbroken(d) && Unbroken(e) && Unbroken(f)
    ensures Words(a + ("\t" + (b + (" " + (clock + ("\t" + (d + ("\t" + (e + ("\t" + f)))))))))) == [a, b, clock, d, e, f]
  {
    hide Words, Unbroken;
    var s4 := e + ("\t" + f);
    var s3 := d + ("\t" + s4);
    var s2 := clock + ("\t" + s3);
    var s1 := b + (" " + s2);
    WordThen(a, '\t', s1);
    WordThen(b, ' ', s2);
    WordThen(clock, '\t', s3);
    WordThen(d, '\t', s4);
    WordThen(e, '\t', f);
    OneWord(f);
  }

  lemma SkipThird(a: string, b: string, item: string, rest: seq<string>)
    requires '=' !in item
    ensures Pairs([a, b] + ([item] + rest)) == Pairs([a, b] + rest)
  {
    NoPair(item, rest);
    var long, short := [a, b] + ([item] + rest), [a, b] + rest;
    assert long[1..] == [b] + ([item] + rest) && long[1..][1..] == [item] + rest;
    assert short[1..] == [b] + rest && short[1..][1..] == rest;
  }

  lemma SpacedKeyedLineIsDropped(r: Report, date: string, clock: string, c: Context)
    requires Proper(r) && Solid(date) && Solid(clock) && r.time == date + (" " + clock)
    requires ':' !in date && ('-' in date || '/' in date)
    ensures ToPunch(ParseLine(KeyedLine(r), c)) == None
  {
    hide Strip, Words, Kept, Split, TabParts, Pairs, ValueOf, TabRow, SpacedRow, CommaRow, FallbackRow, LooksKeyed, FirstFormat;
    var line := KeyedLine(r);
    SpacedKeyedPairs(r, date, clock);
    KeyedValues(r.(time := date));
    KeyedLooks(r);
    assert KeyedRow(line, c) == Some(RowOf(r.(time := date), line, c));
    SolidIsTrimmed(date);
    DateFitsNoFormat(TIME_FORMATS, date);
  }

  lemma CompactHasNoSeparators(t: Moment)
    ensures Solid(Print(Items(Compact), t)) && NoSeparators(Print(Items(Compact), t))
  {
    CompactIsSolid(t);
    FieldsAreDigits(Items(Compact), t);
  }

  /**
   * One punch written as a tab, blank, comma or key-value line, in any of the time formats: the line
   * reads as that punch, except that a tab line drops a compact time before a negative status, blank
   * and comma lines with a compact time read as an invented punch, and a key-value line drops any time
   * but a compact one.
   */
  lemma FormatsAgree(pin: string, f: Format, t: Moment, status: int, verify: int, work: string, c: Context)
    requires AllDigits(pin) && AllDigits(work)
    ensures var r := ReportOf(pin, f, t, status, verify, work);
      && ToPunch(ParseLine(TabLine(r), c))
         == (if f.Compact? && status < 0 then None else Some(PunchOf(pin, f, t, status, verify, work, TabLine(r), c)))
      && ToPunch(ParseLine(SpaceLine(r), c))
         == Some(if f.Compact? then Invented(SpaceLine(r), c) else PunchOf(pin, f, t, status, verify, work, SpaceLine(r), c))
      && ToPunch(ParseLine(CommaLine(r), c))
         == Some(if f.Compact? then Invented(CommaLine(r), c) else PunchOf(pin, f, t, status, verify, work, CommaLine(r), c))
      && ToPunch(ParseLine(KeyedLine(r), c))
         == (if f.Compact? then Some(PunchOf(pin, f, t, status, verify, work, KeyedLine(r), c)) else None)
  {
    hide Print, Strip, IntText, ParseLine, ToPunch, PunchOf, Proper, Invented, FallbackRow, NoSeparators;
    var r := ReportOf(pin, f, t, status, verify, work);
    ReportIsProper(pin, f, t, status, verify, work);
    RowToPunch(pin, f, t, status, verify, work, TabLine(r), c);
    if !f.Compact? || status >= 0 {
      TabLineParses(r, c);
    } else {
      CompactBeforeMinusIsDropped(r, t, status, c);
    }
    if f.Compact? {
      KeyedLineParses(r, c);
      RowToPunch(pin, f, t, status, verify, work, KeyedLine(r), c);
      CompactHasNoSeparators(t);
      BareTimeInSpaceLine(r, c);
      FallbackInvents(SpaceLine(r), c);
      BareTimeInCommaLine(r, c);
      FallbackInvents(CommaLine(r), c);
    } else {
      PrintedInTwo(f, t);
      SpaceLineParses(r, Print(DateItems(f), t), Print(ClockItems(f), t), c);
      RowToPunch(pin, f, t, status, verify, work, SpaceLine(r), c);
      CommaLineParses(r, Print(DateItems(f), t), Print(ClockItems(f), t), c);
      RowToPunch(pin, f, t, status, verify, work, CommaLine(r), c);
      DatesHaveNoColon(f, t);
      SpacedKeyedLineIsDropped(r, Print(DateItems(f), t), Print(ClockItems(f), t), c);
    }
  }
}
