/** iclock.py: the multi-format attendance line parser. */
module Attlog {
  import opened Text
  import opened TextLines
  import opened Times
  import opened Punches
  import opened PushIngest
  import Json

  // ---------------------------------------------------------------------------
  // Which lines are punches
  // ---------------------------------------------------------------------------

  const HEADERS: seq<string> :=
    ["table=", "stamp=", "opstamp=", "count=", "oplog", "operlog",
     "attlog", "rtlog", "cdata", "#", "[", "table "]

  predicate StartsWithAny(s: string, prefixes: seq<string>) {
    exists i :: 0 <= i < |prefixes| && StartsWith(s, prefixes[i])
  }

  /** `is_header_or_metadata_line` */
  predicate IsHeader(line: string) {
    var l := Strip(Lower(line));
    l == [] || StartsWithAny(l, HEADERS)
  }

  function WithoutHeaders(lines: seq<string>): seq<string> {
    if lines == [] then []
    else (if IsHeader(lines[0]) then [] else [lines[0]]) + WithoutHeaders(lines[1..])
  }

  /** The stripped lines of a body that are neither blank nor headers. */
  function PunchLines(body: string): seq<string> {
    WithoutHeaders(Kept(Lines(body)))
  }

  // ---------------------------------------------------------------------------
  // One line, five formats
  // ---------------------------------------------------------------------------

  /** What the router knows about names, and the clock it stamps an unreadable line with. */
  datatype Context = Context(sn: string, nameOf: string -> string, now: Moment)

  function Serial(c: Context): string {
    if c.sn == [] then "UNKNOWN" else c.sn
  }

  function Row(c: Context, pin: string, timestamp: string, status: string, verify: string, work: string,
               line: string): Record {
    Record(Some(Serial(c)), Some(pin), Some(c.nameOf(pin)), Some(timestamp),
           Some(status), Some(verify), Some(work), Some(line))
  }

  function Part(parts: seq<string>, i: nat, default: string): string {
    if i < |parts| then parts[i] else default
  }

  /** An absent or empty part falls back on the default. */
  function Filled(parts: seq<string>, i: nat, default: string): string {
    if i < |parts| && parts[i] != [] then parts[i] else default
  }

  function CharAt(s: string, c: char): nat {
    if s == [] || s[0] == c then 0 else 1 + CharAt(s[1..], c)
  }

  /** `item.split("=", 1)` of the blank-separated items that hold an equals sign. */
  function Pairs(items: seq<string>): seq<(string, string)> {
    if items == [] then []
    else
      var at := CharAt(items[0], '=');
      (if at < |items[0]| then [(Upper(items[0][..at]), items[0][at + 1..])] else []) + Pairs(items[1..])
  }

  /** The last pair with a key, as a dict built in order keeps it. */
  function ValueOf(pairs: seq<(string, string)>, key: string): Option<string> {
    if pairs == [] then None
    else if pairs[|pairs| - 1].0 == key then Some(pairs[|pairs| - 1].1)
    else ValueOf(pairs[..|pairs| - 1], key)
  }

  /** `a or b` over dict values. */
  function FirstOf(pairs: seq<(string, string)>, keys: seq<string>): string {
    if keys == [] then []
    else
      var v := ValueOf(pairs, keys[0]);
      if v.Some? && v.value != [] then v.value else FirstOf(pairs, keys[1..])
  }

  function GetOr(pairs: seq<(string, string)>, key: string, default: string): string {
    match ValueOf(pairs, key) case Some(v) => v case None => default
  }

  predicate LooksKeyed(line: string) {
    Contains(Upper(line), "PIN=") || Contains(Upper(line), "TIME=")
  }

  function KeyedRow(line: string, c: Context): Option<Record> {
    var pairs := Pairs(Words(line));
    var pin := FirstOf(pairs, ["PIN", "USERID", "ID"]);
    var timestamp := FirstOf(pairs, ["TIME", "TIMESTAMP", "DATETIME"]);
    if !LooksKeyed(line) || pin == [] || timestamp == [] then None
    else Some(Row(c, pin, timestamp, GetOr(pairs, "STATUS", "0"),
                  GetOr(pairs, "VERIFY", GetOr(pairs, "VERIFYTYPE", "1")), GetOr(pairs, "WORKCODE", "0"), line))
  }

  /** Tab pieces, stripped; a piece of blanks is dropped but an empty one is kept. */
  function TabParts(pieces: seq<string>): seq<string> {
    if pieces == [] then []
    else
      (if Strip(pieces[0]) != [] || pieces[0] == [] then [Strip(pieces[0])] else []) + TabParts(pieces[1..])
  }

  predicate Has(s: string, c: char) {
    c in s
  }

  function TabTime(parts: seq<string>): string
    requires |parts| >= 2
  {
    if |parts| >= 3 && !Has(parts[1], '-') && !Has(parts[1], ':') && Has(parts[2], '-')
    then parts[1] + " " + parts[2]
    else parts[1]
  }

  function TabRow(line: string, parts: seq<string>, c: Context): Option<Record> {
    if |parts| < 2 || parts[0] == [] then None
    else Some(Row(c, parts[0], TabTime(parts), Filled(parts, 2, "0"), Filled(parts, 3, "1"), Filled(parts, 4, "0"), line))
  }

  function SpacedRow(line: string, parts: seq<string>, c: Context): Option<Record> {
    if |parts| < 3 || !(Has(parts[1], '-') || Has(parts[1], '/')) || !Has(parts[2], ':') then None
    else Some(Row(c, parts[0], parts[1] + " " + parts[2], Part(parts, 3, "0"), Part(parts, 4, "1"), Part(parts, 5, "0"), line))
  }

  function CommaRow(line: string, parts: seq<string>, c: Context): Option<Record> {
    if |parts| < 2 || !(Has(parts[1], '-') || Has(parts[1], '/') || Has(parts[1], ':')) then None
    else Some(Row(c, parts[0], parts[1], Part(parts, 2, "0"), Part(parts, 3, "1"), Part(parts, 4, "0"), line))
  }

  function FallbackRow(line: string, parts: seq<string>, c: Context): Record {
    Row(c, if parts == [] then "DEVICE_USER" else parts[0], Print(Items(Dashed), c.now), "0", "1", "0", line)
  }

  /** The first of the five formats that fits. */
  function ParseLine(line: string, c: Context): Record {
    var parts := TabParts(Split(line, '\t'));
    var keyed := KeyedRow(line, c);
    var tabbed := TabRow(line, parts, c);
    var spaced := SpacedRow(line, Words(line), c);
    var comma := CommaRow(line, Kept(Split(line, ',')), c);
    if keyed.Some? then keyed.value
    else if tabbed.Some? then tabbed.value
    else if spaced.Some? then spaced.value
    else if comma.Some? then comma.value
    else FallbackRow(line, parts, c)
  }

  function ParseLines(lines: seq<string>, c: Context): (rs: seq<Record>)
    ensures |rs| == |lines|
  {
    seq(|lines|, i requires 0 <= i < |lines| => ParseLine(lines[i], c))
  }

  /** `parse_attlog` */
  method ParseAttlog(body: string, c: Context) returns (records: seq<Record>)
    ensures records == ParseLines(PunchLines(body), c)
  {
    hide ParseLine, IsHeader, Lines, Kept;
    records := [];
    if body == [] {
      NothingKept();
      return;
    }
    var lines := Kept(Lines(body));
    for i := 0 to |lines|
      invariant records == ParseLines(WithoutHeaders(lines[..i]), c)
    {
      assert lines[..i + 1] == lines[..i] + [lines[i]];
      WithoutHeadersJoin(lines[..i], [lines[i]]);
      WithoutHeadersOne(lines[i]);
      if IsHeader(lines[i]) {
        assert WithoutHeaders(lines[..i]) + [] == WithoutHeaders(lines[..i]);
        continue;
      }
      records := records + [ParseLine(lines[i], c)];
    }
    assert lines[..|lines|] == lines;
  }

  lemma WithoutHeadersOne(line: string)
    ensures WithoutHeaders([line]) == if IsHeader(line) then [] else [line]
  {
    hide IsHeader;
    assert [line][1..] == [];
  }

  lemma {:induction false} WithoutHeadersJoin(a: seq<string>, b: seq<string>)
    ensures WithoutHeaders(a + b) == WithoutHeaders(a) + WithoutHeaders(b)
  {
    hide IsHeader, WithoutHeaders;
    WithoutHeadersOfNone();
    if a == [] {
      assert a + b == b;
      assert [] + WithoutHeaders(b) == WithoutHeaders(b);
    } else {
      var rest := a[1..] + b;
      WithoutHeadersJoin(a[1..], b);
      assert a + b == [a[0]] + rest && a == [a[0]] + a[1..];
      WithoutHeadersStep(a[0], rest);
      WithoutHeadersStep(a[0], a[1..]);
    }
  }

  lemma WithoutHeadersOfNone()
    ensures WithoutHeaders([]) == []
  {
  }

  lemma WithoutHeadersStep(line: string, rest: seq<string>)
    ensures WithoutHeaders([line] + rest) == (if IsHeader(line) then [] else [line]) + WithoutHeaders(rest)
  {
    hide IsHeader;
    assert ([line] + rest)[1..] == rest;
  }

  // ---------------------------------------------------------------------------
  // Which lines are skipped
  // ---------------------------------------------------------------------------

  lemma {:induction false} LowerKeepsBlanks(s: string)
    requires s != [] && Strip(s) == s
    ensures Strip(Lower(s)) == Lower(s) && Lower(s) != []
  {
    StripTrims(s);
    var l := Lower(s);
    assert l[0] == LowerChar(s[0]) && l[|l| - 1] == LowerChar(s[|s| - 1]);
    StripTrims(l);
  }

  /** A non-blank line is skipped exactly when it begins, in any case, with one of twelve texts. */
  lemma SkippedLinesExactly(line: string)
    requires line != [] && Strip(line) == line
    ensures var low := Lower(line);
      WithoutHeaders([line]) == []
      <==> ("table=" <= low || "stamp=" <= low || "opstamp=" <= low || "count=" <= low || "oplog" <= low || "operlog" <= low
            || "attlog" <= low || "rtlog" <= low || "cdata" <= low || "#" <= low || "[" <= low || "table " <= low)
    ensures WithoutHeaders([line]) == [] || WithoutHeaders([line]) == [line]
  {
    hide Strip, Lower;
    LowerKeepsBlanks(line);
    WithoutHeadersOne(line);
    var low := Lower(line);
    assert HEADERS[0] == "table=" && HEADERS[1] == "stamp=" && HEADERS[2] == "opstamp=" && HEADERS[3] == "count=";
    assert HEADERS[4] == "oplog" && HEADERS[5] == "operlog" && HEADERS[6] == "attlog" && HEADERS[7] == "rtlog";
    assert HEADERS[8] == "cdata" && HEADERS[9] == "#" && HEADERS[10] == "[" && HEADERS[11] == "table ";
    assert |HEADERS| == 12;
    assert StartsWithAny(low, HEADERS) <==>
      StartsWith(low, HEADERS[0]) || StartsWith(low, HEADERS[1]) || StartsWith(low, HEADERS[2]) || StartsWith(low, HEADERS[3])
      || StartsWith(low, HEADERS[4]) || StartsWith(low, HEADERS[5]) || StartsWith(low, HEADERS[6]) || StartsWith(low, HEADERS[7])
      || StartsWith(low, HEADERS[8]) || StartsWith(low, HEADERS[9]) || StartsWith(low, HEADERS[10]) || StartsWith(low, HEADERS[11]);
  }

  /** So the lines kept of a body are its stripped, non-blank lines without those. */
  lemma {:induction false} KeptLinesExactly(lines: seq<string>)
    ensures forall x :: x in WithoutHeaders(lines) <==> x in lines && WithoutHeaders([x]) == [x]
  {
    hide IsHeader;
    if lines != [] {
      KeptLinesExactly(lines[1..]);
      WithoutHeadersOne(lines[0]);
      assert lines == [lines[0]] + lines[1..];
      assert forall x :: x in WithoutHeaders(lines) <==> x in WithoutHeaders([lines[0]]) || x in WithoutHeaders(lines[1..]);
    }
  }

  // ---------------------------------------------------------------------------
  // The parser is total
  // ---------------------------------------------------------------------------

  predicate Stripped(lines: seq<string>) {
    forall i :: 0 <= i < |lines| ==> lines[i] != [] && !IsSpace(lines[i][0])
  }

  lemma {:induction false} KeptAreStripped(lines: seq<string>)
    ensures Stripped(Kept(lines))
  {
    if lines != [] {
      StripTrims(lines[0]);
      KeptAreStripped(lines[1..]);
    }
  }

  lemma {:induction false} PunchLinesAreStripped(lines: seq<string>)
    requires Stripped(lines)
    ensures Stripped(WithoutHeaders(lines))
  {
    hide IsHeader;
    if lines != [] {
      PunchLinesAreStripped(lines[1..]);
    }
  }

  lemma SplitHead(line: string, c: char)
    requires line != [] && line[0] != c
    ensures Split(line, c)[0] != [] && Split(line, c)[0][0] == line[0]
  {
  }

  lemma LeadingCharKept(s: string)
    requires s != [] && !IsSpace(s[0])
    ensures Strip(s) != [] && Strip(s)[0] == s[0]
    decreases |s|
  {
    assert LStrip(s) == s;
    RStripKeepsHead(s);
  }

  lemma {:induction false} RStripKeepsHead(s: string)
    requires s != [] && !IsSpace(s[0])
    ensures RStrip(s) != [] && RStrip(s)[0] == s[0]
  {
    if IsSpace(s[|s| - 1]) {
      RStripKeepsHead(s[..|s| - 1]);
    }
  }

  /** A stripped line always has a first tab part, so the fallback's default PIN is never used. */
  lemma FirstPart(line: string)
    requires line != [] && !IsSpace(line[0])
    ensures var parts := TabParts(Split(line, '\t')); parts != [] && parts[0] != []
  {
    SplitHead(line, '\t');
    LeadingCharKept(Split(line, '\t')[0]);
  }

  lemma CommaPartsAreNonEmpty(pieces: seq<string>)
    ensures forall p :: p in Kept(pieces) ==> p != []
  {
  }

  /** Every format yields the line itself as `raw`, the reader's serial, and a PIN that is not empty. */
  lemma LineGivesRecord(line: string, c: Context)
    requires line != [] && !IsSpace(line[0])
    ensures var r := ParseLine(line, c);
      && r.raw == Some(line) && r.sn == Some(Serial(c))
      && r.userId.Some? && r.userId.value != [] && r.timestamp.Some?
  {
    hide Split, Words, TabParts, Kept, LooksKeyed, Pairs, FirstOf, TabTime, Print;
    FirstPart(line);
    CommaPartsAreNonEmpty(Split(line, ','));
    var words, commas := Words(line), Kept(Split(line, ','));
    assert |words| > 0 ==> words[0] in words;
    assert |commas| > 0 ==> commas[0] in commas;
  }

  /** One record per line that is neither blank nor a header, in order. */
  lemma EveryPunchLineGivesOneRecord(body: string, c: Context)
    ensures var lines, rs := PunchLines(body), ParseLines(PunchLines(body), c);
      && |rs| == |lines|
      && forall i :: 0 <= i < |lines| ==>
           && rs[i].raw == Some(lines[i]) && rs[i].sn == Some(if c.sn == [] then "UNKNOWN" else c.sn)
           && rs[i].userId.Some? && rs[i].userId.value != []
  {
    hide ParseLine;
    var lines := PunchLines(body);
    KeptAreStripped(Lines(body));
    PunchLinesAreStripped(Kept(Lines(body)));
    forall i | 0 <= i < |lines|
      ensures ParseLine(lines[i], c).raw == Some(lines[i])
      ensures ParseLine(lines[i], c).sn == Some(Serial(c))
      ensures ParseLine(lines[i], c).userId.Some? && ParseLine(lines[i], c).userId.value != []
    {
      LineGivesRecord(lines[i], c);
    }
  }

  // ---------------------------------------------------------------------------
  // The wire line of sync_device_punches, through the parser and into a punch
  // ---------------------------------------------------------------------------

  function VerifyText(verify: Option<int>): string {
    match verify case None => "None" case Some(v) => IntText(v)
  }

  /** `f"{uid}\t{ts}\t{status}\t{punch}\t0"` */
  function WireLine(pin: string, t: Moment, status: int, verify: Option<int>): string {
    pin + "\t" + (Print(Items(Dashed), t) + "\t" + (IntText(status) + "\t" + (VerifyText(verify) + "\t" + "0")))
  }

  /** The characters a wire line is made of, besides its tabs. */
  predicate WireChar(c: char) {
    IsDigit(c) || c == '-' || c == ':' || c == ' ' || c == 'N' || c == 'o' || c == 'n' || c == 'e'
  }

  predicate WireField(s: string) {
    s != [] && Strip(s) == s && forall c :: c in s ==> WireChar(c)
  }

  lemma {:induction false} PrintedChars(l: Layout, t: Moment)
    requires forall i :: 0 <= i < |l| && l[i].Lit? ==> l[i].c == '-' || l[i].c == ':'
    ensures forall c :: c in Print(l, t) ==> WireChar(c)
  {
    if l != [] {
      assert forall i :: 0 <= i < |l[1..]| ==> l[1..][i] == l[i + 1];
      PrintedChars(l[1..], t);
      if l[0].Field? {
        var p := PrintField(l[0].d, t);
        assert Digits(p, |p|);
      }
    }
  }

  lemma DigitsAreWireField(pin: string)
    requires AllDigits(pin)
    ensures WireField(pin)
  {
    assert pin[0] in pin && pin[|pin| - 1] in pin;
    StripTrims(pin);
  }

  lemma TimeIsWireField(t: Moment)
    ensures WireField(Print(Items(Dashed), t))
    ensures '-' in Print(Items(Dashed), t)
  {
    hide Print;
    var s := Print(Items(Dashed), t);
    FormatsFielded(Dashed);
    PrintedEnds(Items(Dashed), t);
    StripTrims(s);
    PrintedChars(Items(Dashed), t);
    TimeHasDash(t);
  }

  lemma TimeHasDash(t: Moment)
    ensures '-' in Print(Items(Dashed), t)
  {
    var l := Items(Dashed);
    assert l[1..][0] == Lit('-');
    assert Print(l[1..], t)[0] == '-';
    assert Print(l, t) == PrintField(Year, t) + Print(l[1..], t);
  }

  lemma IntIsWireField(i: int)
    ensures WireField(IntText(i))
  {
    IntTextIsPlain(i);
  }

  lemma VerifyIsWireField(verify: Option<int>)
    ensures WireField(VerifyText(verify))
  {
    match verify
    case Some(v) => IntIsWireField(v);
    case None => StripTrims("None");
  }

  /** Five wire fields joined by tabs are one stripped line that splits back into those fields. */
  lemma FiveFields(a: string, b: string, d: string, e: string, f: string)
    requires WireField(a) && WireField(b) && WireField(d) && WireField(e) && WireField(f)
    ensures var line := a + "\t" + (b + "\t" + (d + "\t" + (e + "\t" + f)));
      Split(line, '\t') == [a, b, d, e, f]
  {
    hide Strip, Split;
    NoTab(a); NoTab(b); NoTab(d); NoTab(e); NoTab(f);
    SplitWhole(f, '\t');
    SplitJoin(e, '\t', f);
    SplitJoin(d, '\t', e + "\t" + f);
    SplitJoin(b, '\t', d + "\t" + (e + "\t" + f));
    SplitJoin(a, '\t', b + "\t" + (d + "\t" + (e + "\t" + f)));
    assert [a] + ([b] + ([d] + ([e] + [f]))) == [a, b, d, e, f];
  }

  lemma NoTab(s: string)
    requires WireField(s)
    ensures '\t' !in s
  {
    assert !WireChar('\t');
  }

  lemma {:induction false} ContainsNeeds(s: string, part: string, c: char)
    requires Contains(s, part) && c in part
    ensures c in s
  {
    if part <= s {
      assert forall i :: 0 <= i < |part| ==> part[i] == s[i];
    } else {
      ContainsNeeds(s[1..], part, c);
    }
  }

  /** A line without an equals sign is not in key-value format. */
  lemma NotKeyed(line: string)
    requires '=' !in line
    ensures !LooksKeyed(line)
  {
    assert '=' !in Upper(line);
    if Contains(Upper(line), "PIN=") {
      assert "PIN="[3] == '=';
      ContainsNeeds(Upper(line), "PIN=", '=');
    }
    if Contains(Upper(line), "TIME=") {
      assert "TIME="[4] == '=';
      ContainsNeeds(Upper(line), "TIME=", '=');
    }
  }

  /** A line that opens with a digit is no header. */
  lemma DigitOpensPunch(line: string)
    requires line != [] && IsDigit(line[0]) && Strip(line) == line
    ensures !IsHeader(line)
  {
    var l := Lower(line);
    assert l[0] == line[0];
    LeadingCharKept(l);
    forall i | 0 <= i < |HEADERS|
      ensures !StartsWith(Strip(l), HEADERS[i])
    {
      HeadersOpen(i);
    }
  }

  lemma HeadersOpen(i: nat)
    requires i < |HEADERS|
    ensures HEADERS[i] != [] && !IsDigit(HEADERS[i][0])
  {
  }

  lemma {:induction false} TabPartsOfFields(fields: seq<string>)
    requires forall i :: 0 <= i < |fields| ==> WireField(fields[i])
    ensures TabParts(fields) == fields
  {
    hide Strip;
    if fields != [] {
      assert WireField(fields[0]);
      assert forall i :: 0 <= i < |fields[1..]| ==> fields[1..][i] == fields[i + 1];
      TabPartsOfFields(fields[1..]);
      assert [fields[0]] + fields[1..] == fields;
    }
  }

  /** The record such a line parses to. */
  lemma WireLineParses(a: string, b: string, d: string, e: string, f: string, line: string, c: Context)
    requires WireField(a) && WireField(b) && WireField(d) && WireField(e) && WireField(f)
    requires '-' in b && line == a + "\t" + (b + "\t" + (d + "\t" + (e + "\t" + f)))
    ensures ParseLine(line, c) == Row(c, a, b, d, e, f, line)
  {
    hide Strip, Words, Kept, Split, TabParts, Pairs, FirstOf, SpacedRow, CommaRow, FallbackRow, LooksKeyed;
    var fields := [a, b, d, e, f];
    FiveFields(a, b, d, e, f);
    TabPartsOfFields(fields);
    WireLineChars(a, b, d, e, f, line);
    NotKeyed(line);
    assert TabRow(line, fields, c) == Some(Row(c, a, b, d, e, f, line));
  }

  lemma WireLineChars(a: string, b: string, d: string, e: string, f: string, line: string)
    requires WireField(a) && WireField(b) && WireField(d) && WireField(e) && WireField(f)
    requires line == a + "\t" + (b + "\t" + (d + "\t" + (e + "\t" + f)))
    ensures forall c :: c in line ==> WireChar(c) || c == '\t'
    ensures '=' !in line && '\n' !in line && '\r' !in line
  {
    hide Strip;
  }

  lemma WireLineIsPunchLine(line: string)
    requires line != [] && IsDigit(line[0]) && Strip(line) == line && '\n' !in line && '\r' !in line
    ensures PunchLines(line) == [line]
  {
    hide Strip, IsHeader, Lines, Kept;
    OneLine(line);
    KeptOne(line);
    DigitOpensPunch(line);
    WithoutHeadersOne(line);
  }

  lemma WireLineOpens(pin: string, rest: string, line: string)
    requires AllDigits(pin) && line == pin + rest && rest != [] && !IsSpace(rest[|rest| - 1])
    ensures line != [] && IsDigit(line[0]) && Strip(line) == line
  {
    assert pin[0] in pin;
    assert '0' <= line[0] <= '9';
    StripTrims(line);
  }

  /** What the wire record becomes. */
  lemma WireRecordToPunch(pin: string, t: Moment, status: int, verify: Option<int>, line: string, c: Context)
    requires AllDigits(pin) && line != []
    ensures ToPunch(Row(c, pin, Print(Items(Dashed), t), IntText(status), VerifyText(verify), "0", line))
         == Some(Punch(
              if Strip(Serial(c)) == [] then "UNKNOWN" else Strip(Serial(c)), pin, t, status, verify, Some("0"),
              if StartsWith(c.nameOf(pin), "User ") then None else Some(c.nameOf(pin)), None, Some(line)))
  {
    hide Print, Strip, PyInt;
    DigitsAreWireField(pin);
    PrintedTimeIsRead(Dashed, t);
    TimeIsWireField(t);
    Text.IntReads(status);
    IntTextIsPlain(status);
    match verify
    case Some(v) => Text.IntReads(v); IntTextIsPlain(v);
    case None => NoneIsNoInt();
  }

  lemma NoneIsNoInt()
    ensures PyInt("None") == None
  {
    StripTrims("None");
  }

  /**
   * Every decimal PIN, time, status and verify code sent as a wire line comes back as one punch with
   * that key, state, verify mode and work code, and with the line as its payload.
   */
  lemma WireRoundTrip(pin: string, t: Moment, status: int, verify: Option<int>, c: Context)
    requires AllDigits(pin)
    ensures var line := WireLine(pin, t, status, verify);
      && PunchLines(line) == [line]
      && Usable(ParseLines(PunchLines(line), c)) == [Punch(
           if Strip(Serial(c)) == [] then "UNKNOWN" else Strip(Serial(c)), pin, t, status, verify, Some("0"),
           if StartsWith(c.nameOf(pin), "User ") then None else Some(c.nameOf(pin)), None, Some(line))]
  {
    hide Print, Strip, ParseLine, ToPunch, PunchLines, IntText, VerifyText;
    var time, state, mode := Print(Items(Dashed), t), IntText(status), VerifyText(verify);
    var line := WireLine(pin, t, status, verify);
    DigitsAreWireField(pin);
    TimeIsWireField(t);
    IntIsWireField(status);
    VerifyIsWireField(verify);
    DigitsAreWireField("0");
    var rest := "\t" + (time + "\t" + (state + "\t" + (mode + "\t" + "0")));
    Json.Assoc(pin, "\t", time + "\t" + (state + "\t" + (mode + "\t" + "0")));
    WireLineOpens(pin, rest, line);
    WireLineChars(pin, time, state, mode, "0", line);
    WireLineIsPunchLine(line);
    WireLineParses(pin, time, state, mode, "0", line, c);
    WireRecordToPunch(pin, t, status, verify, line, c);
    UsableOne(ParseLine(line, c));
    assert ParseLines([line], c) == [ParseLine(line, c)];
  }

  lemma UsableOne(r: Record)
    ensures Usable([r]) == if ToPunch(r).Some? then [ToPunch(r).value] else []
  {
    hide ToPunch;
    assert [r][1..] == [];
  }
}
