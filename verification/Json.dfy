/** `json.loads` and the part of `json.dumps` that the spool uses (RFC 8259). */
module Json {
  import opened Text

  datatype Json =
    | Null
    | Bool(b: bool)
    | Int(i: int)
    | Float(text: string)
    | Str(s: string)
    | Arr(items: seq<Json>)
    | Obj(members: seq<(string, Json)>)

  datatype Parsed<+T> = Parsed(value: T, rest: string)

  // ---------------------------------------------------------------------------
  // Scanning
  // ---------------------------------------------------------------------------

  /** The blanks of section 2 of RFC 8259. */
  predicate IsWs(c: char) {
    c == ' ' || c == '\t' || c == '\n' || c == '\r'
  }

  function SkipWs(s: string): (r: string)
    ensures |r| <= |s|
  {
    if s != [] && IsWs(s[0]) then SkipWs(s[1..]) else s
  }

  predicate IsHex(c: char) {
    IsDigit(c) || 'a' <= c <= 'f' || 'A' <= c <= 'F'
  }

  function HexValue(c: char): (v: nat)
    requires IsHex(c)
    ensures v < 16
  {
    if IsDigit(c) then DigitValue(c)
    else if 'a' <= c <= 'f' then (c - 'a') as nat + 10
    else (c - 'A') as nat + 10
  }

  predicate FourHex(s: string) {
    |s| >= 4 && IsHex(s[0]) && IsHex(s[1]) && IsHex(s[2]) && IsHex(s[3])
  }

  function HexPair(high: char, low: char): (v: nat)
    requires IsHex(high) && IsHex(low)
    ensures v < 0x100
  {
    HexValue(high) * 0x10 + HexValue(low)
  }

  function HexUnit(s: string): (u: nat)
    requires FourHex(s)
    ensures u < 0x10000
  {
    HexPair(s[0], s[1]) * 0x100 + HexPair(s[2], s[3])
  }

  predicate HighSurrogate(u: int) { 0xD800 <= u < 0xDC00 }

  predicate LowSurrogate(u: int) { 0xDC00 <= u < 0xE000 }

  /** The character a two-character escape stands for. */
  function SimpleEscape(c: char): Option<char> {
    if c == '"' || c == '\\' || c == '/' then Some(c)
    else if c == 'b' then Some('\U{8}')
    else if c == 'f' then Some('\U{C}')
    else if c == 'n' then Some('\n')
    else if c == 'r' then Some('\r')
    else if c == 't' then Some('\t')
    else None
  }

  /** One character of a string literal, escaped or plain. A lone surrogate has no character. */
  function ParseChar(s: string): (r: Option<Parsed<char>>)
    ensures r.Some? ==> |r.value.rest| < |s|
  {
    if s == [] || s[0] < ' ' || s[0] == '"' then None
    else if s[0] != '\\' then Some(Parsed(s[0], s[1..]))
    else if |s| < 2 then None
    else if s[1] != 'u' then
      match SimpleEscape(s[1]) { case None => None case Some(c) => Some(Parsed(c, s[2..])) }
    else if !FourHex(s[2..]) then None
    else
      var u := HexUnit(s[2..]);
      if HighSurrogate(u) then
        if |s| >= 12 && s[6] == '\\' && s[7] == 'u' && FourHex(s[8..]) && LowSurrogate(HexUnit(s[8..]))
        then Some(Parsed((0x10000 + (u - 0xD800) * 0x400 + (HexUnit(s[8..]) - 0xDC00)) as char, s[12..]))
        else None
      else if LowSurrogate(u) then None
      else Some(Parsed(u as char, s[6..]))
  }

  /** The rest of a string literal whose opening quote has been read. */
  function ParseString(s: string): (r: Option<Parsed<string>>)
    ensures r.Some? ==> |r.value.rest| < |s|
    decreases |s|
  {
    if s != [] && s[0] == '"' then Some(Parsed([], s[1..]))
    else
      match ParseChar(s)
      case None => None
      case Some(Parsed(c, rest)) =>
        match ParseString(rest)
        case None => None
        case Some(Parsed(text, after)) => Some(Parsed([c] + text, after))
  }

  /** How many digits `s` starts with. */
  function DigitRun(s: string): (n: nat)
    ensures n <= |s| && forall c :: c in s[..n] ==> IsDigit(c)
    ensures n < |s| ==> !IsDigit(s[n])
  {
    if s == [] || !IsDigit(s[0]) then 0
    else
      var n := DigitRun(s[1..]);
      assert s[..1 + n] == [s[0]] + s[1..][..n];
      1 + n
  }

  /** Length of the fraction part, zero when there is none. */
  function FractionRun(s: string): (n: nat)
    ensures n <= |s|
  {
    if |s| >= 2 && s[0] == '.' && IsDigit(s[1]) then 1 + DigitRun(s[1..]) else 0
  }

  /** Length of the exponent part, zero when there is none. */
  function ExponentRun(s: string): (n: nat)
    ensures n <= |s|
  {
    if s == [] || (s[0] != 'e' && s[0] != 'E') then 0
    else
      var signed := |s| >= 2 && (s[1] == '-' || s[1] == '+');
      var at := if signed then 2 else 1;
      var n := DigitRun(s[at..]);
      if n == 0 then 0 else at + n
  }

  /** Length of the integer part: a leading zero stands alone. */
  function WholeRun(s: string): (n: nat)
    ensures n <= DigitRun(s) <= |s|
    ensures n == 0 <==> DigitRun(s) == 0
  {
    if s != [] && s[0] == '0' then 1 else DigitRun(s)
  }

  /** The fraction and exponent after an integer part. */
  function TailRun(s: string): (n: nat)
    ensures n <= |s|
  {
    FractionRun(s) + ExponentRun(s[FractionRun(s)..])
  }

  /** Length of a whole unsigned number. */
  function NumberRun(s: string): (n: nat)
    ensures WholeRun(s) <= n <= |s|
  {
    WholeRun(s) + TailRun(s[WholeRun(s)..])
  }

  /** The value of a number text of which the first `whole` characters are its integer part. */
  function NumberValueOf(s: string, whole: nat, negative: bool): Json
    requires whole <= DigitRun(s) && DigitRun(s) <= |s|
  {
    if whole < |s| then Float((if negative then "-" else "") + s)
    else
      assert s[..DigitRun(s)] == s;
      var v: int := DecimalValue(s);
      Int(if negative then -v else v)
  }

  lemma {:induction false} DigitRunWithin(s: string, n: nat)
    requires n <= |s|
    ensures DigitRun(s[..n]) == if DigitRun(s) < n then DigitRun(s) else n
  {
    if n > 0 && IsDigit(s[0]) {
      DigitRunWithin(s[1..], n - 1);
      assert s[..n][1..] == s[1..][..n - 1];
    }
  }

  /** An unsigned number, its sign having been read. */
  function ParseMagnitude(s: string, negative: bool): (r: Option<Parsed<Json>>)
    ensures r.Some? ==> |r.value.rest| < |s|
  {
    var whole := WholeRun(s);
    if whole == 0 then None
    else
      var end := NumberRun(s);
      DigitRunWithin(s, end);
      Some(Parsed(NumberValueOf(s[..end], whole, negative), s[end..]))
  }

  function ParseWord(s: string, word: string, v: Json): (r: Option<Parsed<Json>>)
    requires word != []
    ensures r.Some? ==> |r.value.rest| < |s|
  {
    if word <= s then Some(Parsed(v, s[|word|..])) else None
  }

  function ParseQuoted(s: string): (r: Option<Parsed<Json>>)
    ensures r.Some? ==> |r.value.rest| < |s|
  {
    match ParseString(s)
    case None => None
    case Some(Parsed(text, rest)) => Some(Parsed(Str(text), rest))
  }

  function ParseNumber(s: string): (r: Option<Parsed<Json>>)
    ensures r.Some? ==> |r.value.rest| < |s|
  {
    if s == [] then None
    else if s[0] != '-' then ParseMagnitude(s, false)
    else if |s| > 1 && s[1] == 'I' then ParseWord(s, "-Infinity", Float("-Infinity"))
    else ParseMagnitude(s[1..], true)
  }

  predicate OpensWord(c: char) {
    c == 'n' || c == 't' || c == 'f' || c == 'N' || c == 'I'
  }

  function WordFor(c: char): (r: (string, Json))
    ensures r.0 != []
  {
    if c == 'n' then ("null", Null)
    else if c == 't' then ("true", Bool(true))
    else if c == 'f' then ("false", Bool(false))
    else if c == 'N' then ("NaN", Float("NaN"))
    else ("Infinity", Float("Infinity"))
  }

  /** One value, with no blanks before it. */
  function ParseValue(s: string): (r: Option<Parsed<Json>>)
    ensures r.Some? ==> |r.value.rest| < |s|
    decreases |s|, 1
  {
    if s == [] then None
    else if s[0] == '"' then ParseQuoted(s[1..])
    else if s[0] == '{' then ParseObject(SkipWs(s[1..]))
    else if s[0] == '[' then ParseArray(SkipWs(s[1..]))
    else if OpensWord(s[0]) then ParseWord(s, WordFor(s[0]).0, WordFor(s[0]).1)
    else ParseNumber(s)
  }

  lemma QuotedValue(s: string)
    requires s != [] && s[0] == '"'
    ensures ParseValue(s) == ParseQuoted(s[1..])
  {
  }

  lemma ObjectValue(s: string)
    requires s != [] && s[0] == '{'
    ensures ParseValue(s) == ParseObject(SkipWs(s[1..]))
  {
  }

  lemma ArrayValue(s: string)
    requires s != [] && s[0] == '['
    ensures ParseValue(s) == ParseArray(SkipWs(s[1..]))
  {
  }

  lemma WordOpens(s: string)
    requires s != [] && OpensWord(s[0])
    ensures ParseValue(s) == ParseWord(s, WordFor(s[0]).0, WordFor(s[0]).1)
  {
  }

  lemma NumberValue(s: string)
    requires s != [] && s[0] != '"' && s[0] != '{' && s[0] != '[' && !OpensWord(s[0])
    ensures ParseValue(s) == ParseNumber(s)
  {
  }

  function ParseObject(s: string): (r: Option<Parsed<Json>>)
    ensures r.Some? ==> |r.value.rest| < |s|
    decreases |s|, 3
  {
    if s != [] && s[0] == '}' then Some(Parsed(Obj([]), s[1..]))
    else
      match ParseMembers(s)
      case None => None
      case Some(Parsed(members, rest)) => Some(Parsed(Obj(members), rest))
  }

  function ParseArray(s: string): (r: Option<Parsed<Json>>)
    ensures r.Some? ==> |r.value.rest| < |s|
    decreases |s|, 3
  {
    if s != [] && s[0] == ']' then Some(Parsed(Arr([]), s[1..]))
    else
      match ParseItems(s)
      case None => None
      case Some(Parsed(items, rest)) => Some(Parsed(Arr(items), rest))
  }

  /** The members of an object up to and including its closing brace. */
  function ParseMembers(s: string): (r: Option<Parsed<seq<(string, Json)>>>)
    ensures r.Some? ==> |r.value.rest| < |s|
    decreases |s|, 0
  {
    if s == [] || s[0] != '"' then None
    else
      match ParseString(s[1..])
      case None => None
      case Some(Parsed(key, afterKey)) =>
        var colon := SkipWs(afterKey);
        if colon == [] || colon[0] != ':' then None
        else
          match ParseValue(SkipWs(colon[1..]))
          case None => None
          case Some(Parsed(value, afterValue)) =>
            var next := SkipWs(afterValue);
            if next == [] then None
            else if next[0] == '}' then Some(Parsed([(key, value)], next[1..]))
            else if next[0] != ',' then None
            else
              match ParseMembers(SkipWs(next[1..]))
              case None => None
              case Some(Parsed(more, rest)) => Some(Parsed([(key, value)] + more, rest))
  }

  /** The items of an array up to and including its closing bracket. */
  function ParseItems(s: string): (r: Option<Parsed<seq<Json>>>)
    ensures r.Some? ==> |r.value.rest| < |s|
    decreases |s|, 2
  {
    match ParseValue(s)
    case None => None
    case Some(Parsed(value, afterValue)) =>
      var next := SkipWs(afterValue);
      if next == [] then None
      else if next[0] == ']' then Some(Parsed([value], next[1..]))
      else if next[0] != ',' then None
      else
        match ParseItems(SkipWs(next[1..]))
        case None => None
        case Some(Parsed(more, rest)) => Some(Parsed([value] + more, rest))
  }

  /** `json.loads(text)`, or None where Python raises ValueError. */
  function Loads(text: string): Option<Json> {
    match ParseValue(SkipWs(text))
    case None => None
    case Some(Parsed(value, rest)) => if SkipWs(rest) == [] then Some(value) else None
  }

  /** `raw.get(key)`: the last of several equal keys wins. */
  function Lookup(members: seq<(string, Json)>, key: string): Option<Json> {
    if members == [] then None
    else if members[|members| - 1].0 == key then Some(members[|members| - 1].1)
    else Lookup(members[..|members| - 1], key)
  }

  // ---------------------------------------------------------------------------
  // Printing
  // ---------------------------------------------------------------------------

  function HexChar(v: nat): (c: char)
    requires v < 16
    ensures IsHex(c) && HexValue(c) == v && ' ' <= c <= '~' && c != '"' && c != '\\'
  {
    if v < 10 then DigitChar(v) else 'a' + ((v - 10) as char)
  }

  function HexByte(v: nat): (s: string)
    requires v < 0x100
    ensures |s| == 2 && IsHex(s[0]) && IsHex(s[1]) && HexPair(s[0], s[1]) == v
    ensures ' ' <= s[0] <= '~' && ' ' <= s[1] <= '~'
  {
    [HexChar(v / 0x10), HexChar(v % 0x10)]
  }

  /** The escape of one UTF-16 code unit. */
  function UnitEscape(u: nat): (s: string)
    requires u < 0x10000
    ensures |s| == 6 && s[0] == '\\' && s[1] == 'u' && FourHex(s[2..]) && HexUnit(s[2..]) == u
    ensures forall c :: c in s ==> ' ' <= c <= '~'
  {
    "\\u" + HexByte(u / 0x100) + HexByte(u % 0x100)
  }

  /** One character as `json.dumps` writes it with `ensure_ascii`. */
  function EscapeChar(c: char): (s: string)
    ensures s != [] && s[0] != '"'
    ensures forall d :: d in s ==> ' ' <= d <= '~'
  {
    if c == '"' then "\\\""
    else if c == '\\' then "\\\\"
    else if c == '\n' then "\\n"
    else if c == '\r' then "\\r"
    else if c == '\t' then "\\t"
    else if c == '\U{C}' then "\\f"
    else if c == '\U{8}' then "\\b"
    else if ' ' <= c <= '~' then [c]
    else CodeEscape(c as int)
  }

  /** A code point as one escaped unit, or as a surrogate pair of them. */
  function CodeEscape(code: int): (s: string)
    requires 0 <= code < 0x110000
    ensures s != [] && s[0] != '"'
    ensures forall d :: d in s ==> ' ' <= d <= '~'
  {
    if code < 0x10000 then UnitEscape(code)
    else UnitEscape(0xD800 + (code - 0x10000) / 0x400) + UnitEscape(0xDC00 + (code - 0x10000) % 0x400)
  }

  function Escape(s: string): (t: string)
    ensures forall d :: d in t ==> ' ' <= d <= '~'
  {
    if s == [] then [] else EscapeChar(s[0]) + Escape(s[1..])
  }

  function Quote(s: string): (t: string)
    ensures forall d :: d in t ==> ' ' <= d <= '~'
  {
    "\"" + Escape(s) + "\""
  }

  // ---------------------------------------------------------------------------
  // Reading back what was printed
  // ---------------------------------------------------------------------------

  lemma UnitReads(u: nat, rest: string)
    requires u < 0x10000
    ensures var s := UnitEscape(u) + rest;
      && |s| >= 6 && s[0] == '\\' && s[1] == 'u' && FourHex(s[2..]) && HexUnit(s[2..]) == u
      && s[6..] == rest
  {
    var e := UnitEscape(u);
    var s := e + rest;
    assert forall i :: 0 <= i < 4 ==> s[2..][i] == e[2..][i];
  }

  /** Characters written as themselves or with a two-character escape. */
  predicate Short(c: char) {
    ' ' <= c <= '~' || c == '\n' || c == '\r' || c == '\t' || c == '\U{C}' || c == '\U{8}'
  }

  lemma ShortEscapeReads(c: char, rest: string)
    requires Short(c)
    ensures ParseChar(EscapeChar(c) + rest) == Some(Parsed(c, rest))
  {
    var s := EscapeChar(c) + rest;
    if |EscapeChar(c)| == 1 {
      assert s[1..] == rest;
    } else {
      assert s[2..] == rest;
    }
  }

  lemma UnitEscapeReads(u: nat, rest: string)
    requires u < 0x10000 && !HighSurrogate(u) && !LowSurrogate(u)
    ensures ParseChar(UnitEscape(u) + rest) == Some(Parsed(u as char, rest))
  {
    UnitReads(u, rest);
  }

  lemma PairEscapeReads(high: nat, low: nat, rest: string)
    requires HighSurrogate(high) && LowSurrogate(low)
    ensures ParseChar(UnitEscape(high) + UnitEscape(low) + rest)
         == Some(Parsed((0x10000 + (high - 0xD800) * 0x400 + (low - 0xDC00)) as char, rest))
  {
    var tail := UnitEscape(low) + rest;
    var s := UnitEscape(high) + tail;
    assert UnitEscape(high) + UnitEscape(low) + rest == s;
    UnitReads(high, tail);
    UnitReads(low, rest);
    assert s[6] == tail[0] && s[7] == tail[1];
    assert s[8..] == tail[2..] && s[12..] == tail[6..];
  }

  lemma LongEscapeReads(c: char, rest: string)
    requires !Short(c) && c as int < 0x10000
    ensures ParseChar(EscapeChar(c) + rest) == Some(Parsed(c, rest))
  {
    UnitEscapeReads(c as int, rest);
  }

  lemma SurrogatesRebuild(code: int)
    requires 0x10000 <= code < 0x110000
    ensures var off := code - 0x10000;
      HighSurrogate(0xD800 + off / 0x400) && LowSurrogate(0xDC00 + off % 0x400)
      && 0x10000 + off / 0x400 * 0x400 + off % 0x400 == code
  {
  }

  lemma WideEscape(c: char)
    requires c as int >= 0x10000
    ensures var off := c as int - 0x10000;
      EscapeChar(c) == UnitEscape(0xD800 + off / 0x400) + UnitEscape(0xDC00 + off % 0x400)
  {
  }

  lemma WideEscapeReads(c: char, high: nat, low: nat, rest: string)
    requires HighSurrogate(high) && LowSurrogate(low)
    requires c as int == 0x10000 + (high - 0xD800) * 0x400 + (low - 0xDC00)
    requires EscapeChar(c) == UnitEscape(high) + UnitEscape(low)
    ensures ParseChar(EscapeChar(c) + rest) == Some(Parsed(c, rest))
  {
    PairEscapeReads(high, low, rest);
  }

  lemma CharReads(c: char, rest: string)
    ensures ParseChar(EscapeChar(c) + rest) == Some(Parsed(c, rest))
  {
    if Short(c) {
      ShortEscapeReads(c, rest);
    } else if c as int < 0x10000 {
      LongEscapeReads(c, rest);
    } else {
      var off := c as int - 0x10000;
      WideEscape(c);
      SurrogatesRebuild(c as int);
      WideEscapeReads(c, 0xD800 + off / 0x400, 0xDC00 + off % 0x400, rest);
    }
  }

  lemma StringReadsStep(text: string, tail: string, rest: string)
    requires text != []
    requires ParseString(tail) == Some(Parsed(text[1..], rest))
    ensures ParseString(EscapeChar(text[0]) + tail) == Some(Parsed(text, rest))
  {
    CharReads(text[0], tail);
    assert [text[0]] + text[1..] == text;
  }

  lemma {:induction false} StringReads(text: string, rest: string)
    ensures ParseString(Escape(text) + "\"" + rest) == Some(Parsed(text, rest))
  {
    if text == [] {
      assert Escape(text) + "\"" + rest == "\"" + rest;
      assert ("\"" + rest)[1..] == rest;
    } else {
      var after := Escape(text[1..]) + "\"" + rest;
      StringReads(text[1..], rest);
      StringReadsStep(text, after, rest);
      assert Escape(text) + "\"" + rest == EscapeChar(text[0]) + after;
    }
  }

  lemma QuoteOpens(text: string, rest: string)
    ensures (Quote(text) + rest)[0] == '"'
    ensures (Quote(text) + rest)[1..] == Escape(text) + "\"" + rest
  {
  }

  lemma QuoteReads(text: string, rest: string)
    ensures ParseString((Quote(text) + rest)[1..]) == Some(Parsed(text, rest))
    ensures ParseValue(Quote(text) + rest) == Some(Parsed(Str(text), rest))
  {
    QuoteOpens(text, rest);
    StringReads(text, rest);
    QuotedValue(Quote(text) + rest);
  }

  lemma {:induction false} DigitRunStops(s: string, rest: string)
    requires forall c :: c in s ==> IsDigit(c)
    requires rest != [] ==> !IsDigit(rest[0])
    ensures DigitRun(s + rest) == |s|
  {
    if s != [] {
      DigitRunStops(s[1..], rest);
      assert (s + rest)[1..] == s[1..] + rest;
      assert s[0] in s;
    }
  }

  /** What can follow a number inside an object or array. */
  predicate AfterValue(rest: string) {
    rest != [] && (IsWs(rest[0]) || rest[0] == ',' || rest[0] == '}' || rest[0] == ']')
  }

  lemma NoFraction(rest: string)
    requires AfterValue(rest)
    ensures FractionRun(rest) == 0 && ExponentRun(rest) == 0
  {
  }

  lemma NumberRunReads(n: nat, rest: string)
    requires AfterValue(rest)
    ensures var s := Decimal(n) + rest;
      WholeRun(s) == NumberRun(s) == |Decimal(n)| && DigitRun(Decimal(n)) == |Decimal(n)|
  {
    var d := Decimal(n);
    var s := d + rest;
    DecimalReads(n);
    DigitRunStops(d, rest);
    DigitRunStops(d, []);
    assert d + [] == d;
    NoFraction(rest);
    assert s[0] == d[0];
    assert s[|d|..] == rest && s[|d| + 0..] == rest;
  }

  lemma MagnitudeReads(n: nat, negative: bool, rest: string)
    requires AfterValue(rest)
    ensures ParseMagnitude(Decimal(n) + rest, negative) == Some(Parsed(Int(if negative then 0 - n else n), rest))
  {
    hide NumberRun, WholeRun, DigitRun, NumberValueOf, Decimal;
    var d := Decimal(n);
    var s := d + rest;
    NumberRunReads(n, rest);
    DecimalHasValue(n, negative);
    assert s[..|d|] == d && s[|d|..] == rest;
  }

  lemma DecimalHasValue(n: nat, negative: bool)
    requires DigitRun(Decimal(n)) == |Decimal(n)|
    ensures NumberValueOf(Decimal(n), |Decimal(n)|, negative) == Int(if negative then 0 - n else n)
  {
    hide DigitRun, Decimal, DecimalValue;
    DecimalReads(n);
  }

  lemma PositiveReads(n: nat, rest: string)
    requires AfterValue(rest)
    ensures ParseNumber(Decimal(n) + rest) == Some(Parsed(Int(n), rest))
    ensures IsDigit((Decimal(n) + rest)[0])
  {
    DecimalReads(n);
    MagnitudeReads(n, false, rest);
    assert (Decimal(n) + rest)[0] == Decimal(n)[0] && Decimal(n)[0] in Decimal(n);
  }

  lemma SignedNumber(s: string)
    requires |s| > 1 && s[0] == '-' && s[1] != 'I'
    ensures ParseNumber(s) == ParseMagnitude(s[1..], true)
  {
  }

  lemma DecimalFollows(n: nat, s: string, rest: string)
    requires s != [] && s[0] == '-' && s[1..] == Decimal(n) + rest
    ensures |s| > 1 && s[1] != 'I'
  {
    DecimalReads(n);
    assert Decimal(n)[0] in Decimal(n);
    assert s[1] == s[1..][0] == Decimal(n)[0];
    assert '0' <= s[1] <= '9';
  }

  lemma NegativeReads(i: int, n: nat, s: string, rest: string)
    requires AfterValue(rest) && i + n == 0 && s != [] && s[0] == '-' && s[1..] == Decimal(n) + rest
    ensures ParseNumber(s) == Some(Parsed(Int(i), rest))
  {
    DecimalFollows(n, s, rest);
    SignedNumber(s);
    MagnitudeReads(n, true, rest);
  }

  lemma DigitOpensNumber(s: string)
    requires s != [] && IsDigit(s[0])
    ensures ParseValue(s) == ParseNumber(s)
  {
    assert '0' <= s[0] <= '9';
    NumberValue(s);
  }

  lemma PositiveValueReads(n: nat, rest: string)
    requires AfterValue(rest)
    ensures ParseValue(Decimal(n) + rest) == Some(Parsed(Int(n), rest))
  {
    PositiveReads(n, rest);
    DigitOpensNumber(Decimal(n) + rest);
  }

  lemma NegativeValueReads(i: int, s: string, rest: string)
    requires AfterValue(rest) && i < 0 && s != [] && s[0] == '-' && s[1..] == Decimal(-i) + rest
    ensures ParseValue(s) == Some(Parsed(Int(i), rest))
  {
    NegativeReads(i, -i, s, rest);
    NumberValue(s);
  }

  lemma Assoc(a: string, b: string, c: string)
    ensures (a + b) + c == a + (b + c)
  {
  }

  lemma IntReads(i: int, rest: string)
    requires AfterValue(rest)
    ensures ParseValue(IntText(i) + rest) == Some(Parsed(Int(i), rest))
  {
    if i < 0 {
      Assoc("-", Decimal(-i), rest);
      NegativeValueReads(i, IntText(i) + rest, rest);
    } else {
      PositiveValueReads(i, rest);
    }
  }

  // ---------------------------------------------------------------------------
  // A parse that ends early does not look further: truncated text cannot parse
  // ---------------------------------------------------------------------------

  function Grown<T>(r: Option<Parsed<T>>, ext: string): Option<Parsed<T>> {
    match r
    case None => None
    case Some(Parsed(v, rest)) => Some(Parsed(v, rest + ext))
  }

  lemma {:induction false} SkipWsGrows(s: string, ext: string)
    requires SkipWs(s) != []
    ensures SkipWs(s + ext) == SkipWs(s) + ext
  {
    if IsWs(s[0]) {
      SkipWsGrows(s[1..], ext);
      assert (s + ext)[1..] == s[1..] + ext;
    }
  }

  lemma TailGrows(s: string, n: nat, ext: string)
    requires n <= |s|
    ensures (s + ext)[n..] == s[n..] + ext
  {
  }

  lemma FourHexGrows(s: string, n: nat, ext: string)
    requires n <= |s| && FourHex(s[n..])
    ensures FourHex((s + ext)[n..]) && HexUnit((s + ext)[n..]) == HexUnit(s[n..])
  {
    TailGrows(s, n, ext);
  }

  lemma CharGrows(s: string, ext: string)
    requires ParseChar(s).Some?
    ensures ParseChar(s + ext) == Grown(ParseChar(s), ext)
  {
    TailGrows(s, 1, ext);
    if s[0] == '\\' {
      TailGrows(s, 2, ext);
      if s[1] == 'u' {
        FourHexGrows(s, 2, ext);
        TailGrows(s, 6, ext);
        if HighSurrogate(HexUnit(s[2..])) {
          FourHexGrows(s, 8, ext);
          TailGrows(s, 12, ext);
        }
      }
    }
  }

  lemma {:induction false} StringGrows(s: string, ext: string)
    requires ParseString(s).Some?
    ensures ParseString(s + ext) == Grown(ParseString(s), ext)
    decreases |s|
  {
    TailGrows(s, 1, ext);
    if s[0] != '"' {
      CharGrows(s, ext);
      StringGrows(ParseChar(s).value.rest, ext);
    }
  }

  lemma {:induction false} DigitRunGrows(s: string, ext: string)
    requires DigitRun(s) < |s|
    ensures DigitRun(s + ext) == DigitRun(s)
  {
    if IsDigit(s[0]) {
      DigitRunGrows(s[1..], ext);
      TailGrows(s, 1, ext);
    }
  }

  lemma FractionGrows(s: string, ext: string)
    requires FractionRun(s) < |s| && (FractionRun(s) == 0 ==> s[0] != '.')
    ensures FractionRun(s + ext) == FractionRun(s)
  {
    if s[0] == '.' {
      DigitRunGrows(s[1..], ext);
      TailGrows(s, 1, ext);
    }
  }

  lemma ExponentGrows(s: string, ext: string)
    requires ExponentRun(s) < |s| && (ExponentRun(s) == 0 ==> s[0] != 'e' && s[0] != 'E')
    ensures ExponentRun(s + ext) == ExponentRun(s)
  {
    if s[0] == 'e' || s[0] == 'E' {
      var at := if |s| >= 2 && (s[1] == '-' || s[1] == '+') then 2 else 1;
      DigitRunGrows(s[at..], ext);
      TailGrows(s, at, ext);
    }
  }

  lemma WholeRunGrows(s: string, ext: string)
    requires 0 < WholeRun(s) < |s|
    ensures WholeRun(s + ext) == WholeRun(s)
  {
    if s[0] == '0' {
      assert (s + ext)[0] == '0';
    } else {
      DigitRunGrows(s, ext);
    }
  }

  lemma TailRunGrows(s: string, ext: string)
    requires AfterValue(s[TailRun(s)..])
    ensures TailRun(s + ext) == TailRun(s)
  {
    var fraction := FractionRun(s);
    assert s[fraction..][ExponentRun(s[fraction..])..] == s[TailRun(s)..];
    FractionGrows(s, ext);
    TailGrows(s, fraction, ext);
    ExponentGrows(s[fraction..], ext);
  }

  lemma NumberRunGrows(s: string, ext: string)
    requires WholeRun(s) > 0 && AfterValue(s[NumberRun(s)..])
    ensures WholeRun(s + ext) == WholeRun(s) && NumberRun(s + ext) == NumberRun(s)
  {
    var whole := WholeRun(s);
    assert s[whole..][TailRun(s[whole..])..] == s[NumberRun(s)..];
    WholeRunGrows(s, ext);
    TailGrows(s, whole, ext);
    TailRunGrows(s[whole..], ext);
  }

  lemma MagnitudeGrows(s: string, negative: bool, ext: string)
    requires ParseMagnitude(s, negative).Some? && AfterValue(ParseMagnitude(s, negative).value.rest)
    ensures ParseMagnitude(s + ext, negative) == Grown(ParseMagnitude(s, negative), ext)
  {
    hide NumberRun, WholeRun, NumberValueOf, AfterValue;
    var end := NumberRun(s);
    NumberRunGrows(s, ext);
    TailGrows(s, end, ext);
    assert (s + ext)[..end] == s[..end];
  }

  lemma NumberGrows(s: string, ext: string)
    requires ParseNumber(s).Some? && AfterValue(ParseNumber(s).value.rest)
    ensures ParseNumber(s + ext) == Grown(ParseNumber(s), ext)
  {
    if s[0] != '-' {
      MagnitudeGrows(s, false, ext);
    } else if |s| > 1 && s[1] == 'I' {
      TailGrows(s, 9, ext);
    } else {
      TailGrows(s, 1, ext);
      MagnitudeGrows(s[1..], true, ext);
    }
  }

  lemma WordGrows(s: string, word: string, v: Json, ext: string)
    requires word != [] && ParseWord(s, word, v).Some?
    ensures ParseWord(s + ext, word, v) == Grown(ParseWord(s, word, v), ext)
  {
    TailGrows(s, |word|, ext);
    assert word <= s + ext;
  }

  lemma {:induction false} ValueGrows(s: string, ext: string)
    requires ParseValue(s).Some? && AfterValue(ParseValue(s).value.rest)
    ensures ParseValue(s + ext) == Grown(ParseValue(s), ext)
    decreases |s|, 1
  {
    TailGrows(s, 1, ext);
    if s[0] == '"' {
      QuotedValue(s); QuotedValue(s + ext);
      StringGrows(s[1..], ext);
    } else if s[0] == '{' {
      ObjectValue(s); ObjectValue(s + ext);
      SkipWsGrows(s[1..], ext);
      ObjectGrows(SkipWs(s[1..]), ext);
    } else if s[0] == '[' {
      ArrayValue(s); ArrayValue(s + ext);
      SkipWsGrows(s[1..], ext);
      ArrayGrows(SkipWs(s[1..]), ext);
    } else if OpensWord(s[0]) {
      WordOpens(s); WordOpens(s + ext);
      WordGrows(s, WordFor(s[0]).0, WordFor(s[0]).1, ext);
    } else {
      NumberValue(s); NumberValue(s + ext);
      NumberGrows(s, ext);
    }
  }

  lemma {:induction false} ObjectGrows(s: string, ext: string)
    requires ParseObject(s).Some?
    ensures ParseObject(s + ext) == Grown(ParseObject(s), ext)
    decreases |s|, 3
  {
    TailGrows(s, 1, ext);
    if s[0] != '}' {
      MembersGrow(s, ext);
    }
  }

  lemma {:induction false} ArrayGrows(s: string, ext: string)
    requires ParseArray(s).Some?
    ensures ParseArray(s + ext) == Grown(ParseArray(s), ext)
    decreases |s|, 3
  {
    TailGrows(s, 1, ext);
    if s[0] != ']' {
      ItemsGrow(s, ext);
    }
  }

  lemma {:induction false} MembersGrow(s: string, ext: string)
    requires ParseMembers(s).Some?
    ensures ParseMembers(s + ext) == Grown(ParseMembers(s), ext)
    decreases |s|, 0
  {
    var afterKey := ParseString(s[1..]).value.rest;
    var colon := SkipWs(afterKey);
    var start := SkipWs(colon[1..]);
    var afterValue := ParseValue(start).value.rest;
    var next := SkipWs(afterValue);
    TailGrows(s, 1, ext);
    StringGrows(s[1..], ext);
    SkipWsGrows(afterKey, ext);
    TailGrows(colon, 1, ext);
    SkipWsGrows(colon[1..], ext);
    ValueGrows(start, ext);
    SkipWsGrows(afterValue, ext);
    TailGrows(next, 1, ext);
    if next[0] == ',' {
      SkipWsGrows(next[1..], ext);
      MembersGrow(SkipWs(next[1..]), ext);
    }
  }

  lemma {:induction false} ItemsGrow(s: string, ext: string)
    requires ParseItems(s).Some?
    ensures ParseItems(s + ext) == Grown(ParseItems(s), ext)
    decreases |s|, 2
  {
    var afterValue := ParseValue(s).value.rest;
    var next := SkipWs(afterValue);
    ValueGrows(s, ext);
    SkipWsGrows(afterValue, ext);
    TailGrows(next, 1, ext);
    if next[0] == ',' {
      SkipWsGrows(next[1..], ext);
      ItemsGrow(SkipWs(next[1..]), ext);
    }
  }

  /** No proper prefix of a printed object is valid JSON, with or without trailing blanks. */
  lemma TruncatedObjectFails(line: string, n: nat)
    requires line != [] && line[0] == '{' && n < |line|
    requires ParseValue(line).Some? && ParseValue(line).value.rest == []
    ensures Loads(line[..n]) == None
  {
    var cut, ext := line[..n], line[n..];
    assert line == cut + ext;
    if n > 0 && ParseValue(cut).Some? {
      ObjectValue(cut);
      ObjectValue(line);
      TailGrows(cut, 1, ext);
      SkipWsGrows(cut[1..], ext);
      ObjectGrows(SkipWs(cut[1..]), ext);
    }
  }

  /** Nor is a whole object with more behind it. */
  lemma ObjectWithMoreFails(line: string, more: string)
    requires line != [] && line[0] == '{' && more != [] && !IsWs(more[0])
    requires ParseValue(line).Some? && ParseValue(line).value.rest == []
    ensures Loads(line + more) == None
  {
    hide ParseValue, ParseObject;
    ObjectValue(line);
    ObjectValue(line + more);
    TailGrows(line, 1, more);
    SkipWsGrows(line[1..], more);
    ObjectGrows(SkipWs(line[1..]), more);
    assert [] + more == more;
  }

  // ---------------------------------------------------------------------------
  // Printing and reading one flat object
  // ---------------------------------------------------------------------------

  /** The values a punch is made of. */
  predicate Flat(v: Json) {
    v.Null? || v.Int? || v.Str?
  }

  predicate FlatMembers(ms: seq<(string, Json)>) {
    forall i :: 0 <= i < |ms| ==> Flat(ms[i].1)
  }

  predicate Ascii(s: string) {
    forall c :: c in s ==> ' ' <= c <= '~'
  }

  function DumpFlat(v: Json): string
    requires Flat(v)
  {
    match v
    case Null => "null"
    case Int(i) => IntText(i)
    case Str(s) => Quote(s)
  }

  function DumpMembers(ms: seq<(string, Json)>): string
    requires ms != [] && FlatMembers(ms)
    decreases |ms|, 1
  {
    Quote(ms[0].0) + ": " + DumpFlat(ms[0].1) + DumpRest(ms)
  }

  /** The separator and what follows the first member. */
  function DumpRest(ms: seq<(string, Json)>): string
    requires ms != [] && FlatMembers(ms)
    decreases |ms|, 0
  {
    if |ms| == 1 then "}" else ", " + DumpMembers(ms[1..])
  }

  /** `json.dumps` of a non-empty flat dict. */
  function DumpObject(ms: seq<(string, Json)>): string
    requires ms != [] && FlatMembers(ms)
  {
    "{" + DumpMembers(ms)
  }

  lemma FlatReads(v: Json, rest: string)
    requires Flat(v) && AfterValue(rest)
    ensures ParseValue(DumpFlat(v) + rest) == Some(Parsed(v, rest))
    ensures DumpFlat(v) != [] && !IsWs(DumpFlat(v)[0])
  {
    match v
    case Null =>
      WordOpens("null" + rest);
    case Int(i) =>
      IntReads(i, rest);
      DecimalReads(if i < 0 then -i else i);
      assert i >= 0 ==> Decimal(i)[0] in Decimal(i);
    case Str(s) =>
      QuoteReads(s, rest);
  }

  lemma FlatIsAscii(v: Json)
    requires Flat(v)
    ensures Ascii(DumpFlat(v))
  {
    if v.Int? {
      DecimalReads(if v.i < 0 then -v.i else v.i);
    }
  }

  lemma {:induction false} MembersAreAscii(ms: seq<(string, Json)>)
    requires ms != [] && FlatMembers(ms)
    ensures Ascii(DumpMembers(ms))
    ensures DumpMembers(ms)[0] == '"' && DumpMembers(ms)[|DumpMembers(ms)| - 1] == '}'
  {
    var head, tail := Quote(ms[0].0) + ": " + DumpFlat(ms[0].1), DumpRest(ms);
    FlatIsAscii(ms[0].1);
    assert Ascii(head);
    if |ms| > 1 {
      MembersAreAscii(ms[1..]);
    }
    assert Ascii(tail) && tail[|tail| - 1] == '}';
    assert DumpMembers(ms) == head + tail;
  }

  /** The last turn of the member loop, from the pieces it reads. */
  lemma LastStep(s: string, key: string, afterKey: string, start: string, v: Json, next: string)
    requires s != [] && s[0] == '"' && ParseString(s[1..]) == Some(Parsed(key, afterKey))
    requires afterKey != [] && afterKey[0] == ':' && SkipWs(afterKey[1..]) == start
    requires ParseValue(start) == Some(Parsed(v, next))
    requires next != [] && next[0] == '}'
    ensures ParseMembers(s) == Some(Parsed([(key, v)], next[1..]))
  {
  }

  /** An earlier turn, followed by the rest of the members. */
  lemma NextStep(s: string, key: string, afterKey: string, start: string, v: Json, next: string,
                 more: string, ms: seq<(string, Json)>, rest: string)
    requires s != [] && s[0] == '"' && ParseString(s[1..]) == Some(Parsed(key, afterKey))
    requires afterKey != [] && afterKey[0] == ':' && SkipWs(afterKey[1..]) == start
    requires ParseValue(start) == Some(Parsed(v, next))
    requires next != [] && next[0] == ',' && SkipWs(next[1..]) == more
    requires |more| < |s| && ParseMembers(more) == Some(Parsed(ms, rest))
    ensures ParseMembers(s) == Some(Parsed([(key, v)] + ms, rest))
  {
  }

  lemma SkipOneBlank(s: string)
    requires s != [] && !IsWs(s[0])
    ensures SkipWs(" " + s) == s
  {
    assert (" " + s)[1..] == s;
  }

  lemma MemberReads(key: string, v: Json, s: string, afterKey: string, next: string)
    requires Flat(v) && next != [] && (next[0] == ',' || next[0] == '}')
    requires s == Quote(key) + afterKey && afterKey == ": " + (DumpFlat(v) + next)
    ensures s[0] == '"' && ParseString(s[1..]) == Some(Parsed(key, afterKey))
    ensures afterKey[0] == ':' && SkipWs(afterKey[1..]) == DumpFlat(v) + next
    ensures ParseValue(DumpFlat(v) + next) == Some(Parsed(v, next))
  {
    QuoteReads(key, afterKey);
    FlatReads(v, next);
    SkipOneBlank(DumpFlat(v) + next);
    assert afterKey[1..] == " " + (DumpFlat(v) + next);
  }

  lemma LastMemberReads(key: string, v: Json, s: string, afterKey: string, next: string)
    requires Flat(v) && next != [] && next[0] == '}'
    requires s == Quote(key) + afterKey && afterKey == ": " + (DumpFlat(v) + next)
    ensures ParseMembers(s) == Some(Parsed([(key, v)], next[1..]))
  {
    MemberReads(key, v, s, afterKey, next);
    LastStep(s, key, afterKey, DumpFlat(v) + next, v, next);
  }

  lemma MoreMembersRead(key: string, v: Json, s: string, afterKey: string, next: string,
                        more: string, ms: seq<(string, Json)>, rest: string)
    requires Flat(v) && next != [] && next[0] == ',' && SkipWs(next[1..]) == more
    requires s == Quote(key) + afterKey && afterKey == ": " + (DumpFlat(v) + next)
    requires ParseMembers(more) == Some(Parsed(ms, rest))
    ensures ParseMembers(s) == Some(Parsed([(key, v)] + ms, rest))
  {
    MemberReads(key, v, s, afterKey, next);
    NextStep(s, key, afterKey, DumpFlat(v) + next, v, next, more, ms, rest);
  }

  lemma DumpSplit(ms: seq<(string, Json)>, rest: string)
    requires ms != [] && FlatMembers(ms)
    ensures DumpMembers(ms) + rest
         == Quote(ms[0].0) + (": " + (DumpFlat(ms[0].1) + (DumpRest(ms) + rest)))
  {
    Assoc(Quote(ms[0].0) + ": " + DumpFlat(ms[0].1), DumpRest(ms), rest);
    Assoc(Quote(ms[0].0) + ": ", DumpFlat(ms[0].1), DumpRest(ms) + rest);
    Assoc(Quote(ms[0].0), ": ", DumpFlat(ms[0].1) + (DumpRest(ms) + rest));
  }

  lemma CommaThenMore(more: string, next: string)
    requires next == ", " + more && more != [] && !IsWs(more[0])
    ensures next[0] == ',' && SkipWs(next[1..]) == more
  {
    assert next[1..] == " " + more;
    SkipOneBlank(more);
  }

  lemma {:induction false} MembersRead(ms: seq<(string, Json)>, rest: string)
    requires ms != [] && FlatMembers(ms)
    ensures ParseMembers(DumpMembers(ms) + rest) == Some(Parsed(ms, rest))
  {
    var next := DumpRest(ms) + rest;
    var afterKey := ": " + (DumpFlat(ms[0].1) + next);
    DumpSplit(ms, rest);
    if |ms| == 1 {
      assert ms == [(ms[0].0, ms[0].1)];
      assert next[1..] == rest;
      LastMemberReads(ms[0].0, ms[0].1, DumpMembers(ms) + rest, afterKey, next);
    } else {
      assert ms == [(ms[0].0, ms[0].1)] + ms[1..];
      MembersRead(ms[1..], rest);
      MembersAreAscii(ms[1..]);
      var more := DumpMembers(ms[1..]) + rest;
      Assoc(", ", DumpMembers(ms[1..]), rest);
      CommaThenMore(more, next);
      MoreMembersRead(ms[0].0, ms[0].1, DumpMembers(ms) + rest, afterKey, next, more, ms[1..], rest);
    }
  }

  lemma ObjectReads(ms: seq<(string, Json)>)
    requires ms != [] && FlatMembers(ms)
    ensures ParseValue(DumpObject(ms)) == Some(Parsed(Obj(ms), []))
    ensures Loads(DumpObject(ms)) == Some(Obj(ms))
    ensures DumpObject(ms)[0] == '{' && DumpObject(ms)[|DumpObject(ms)| - 1] == '}'
    ensures Ascii(DumpObject(ms))
  {
    hide DumpMembers, ParseMembers, Quote, FlatMembers;
    MembersRead(ms, []);
    MembersAreAscii(ms);
    assert DumpMembers(ms) + [] == DumpMembers(ms);
    assert DumpObject(ms)[1..] == DumpMembers(ms);
    ObjectValue(DumpObject(ms));
  }

  /** A printed object is one line of printable ASCII that `strip` leaves alone. */
  lemma ObjectIsPlain(ms: seq<(string, Json)>)
    requires ms != [] && FlatMembers(ms)
    ensures DumpObject(ms) != [] && Ascii(DumpObject(ms)) && Strip(DumpObject(ms)) == DumpObject(ms)
    ensures '\n' !in DumpObject(ms) && '\r' !in DumpObject(ms)
  {
    ObjectReads(ms);
    StripTrims(DumpObject(ms));
  }

  lemma StripOfPrefix(line: string, n: nat) returns (kept: nat)
    requires n <= |line| && line != [] && !IsSpace(line[0])
    ensures kept <= n && Strip(line[..n]) == line[..kept]
  {
    var cut := line[..n];
    assert LStrip(cut) == cut;
    RStripIsPrefix(cut);
    kept := |Strip(cut)|;
    assert line[..kept] == cut[..kept];
  }

  /** Cut anywhere before its closing brace, it no longer parses. */
  lemma TornObjectFails(ms: seq<(string, Json)>, n: nat)
    requires ms != [] && FlatMembers(ms) && n < |DumpObject(ms)|
    ensures Loads(Strip(DumpObject(ms)[..n])) == None
  {
    var line := DumpObject(ms);
    ObjectReads(ms);
    var kept := StripOfPrefix(line, n);
    TruncatedObjectFails(line, kept);
  }

  // ---------------------------------------------------------------------------
  // What the spool never writes, but the reader takes
  // ---------------------------------------------------------------------------

  /** Blanks, tabs and line breaks before a text are skipped. */
  lemma {:induction false} LeadingBlanksGo(blanks: string, text: string)
    requires forall i :: 0 <= i < |blanks| ==>
      blanks[i] == ' ' || blanks[i] == '\t' || blanks[i] == '\n' || blanks[i] == '\r'
    ensures SkipWs(blanks + text) == SkipWs(text) && Loads(blanks + text) == Loads(text)
  {
    hide ParseValue;
    if blanks == [] {
      assert blanks + text == text;
    } else {
      LeadingBlanksGo(blanks[1..], text);
      assert (blanks + text)[1..] == blanks[1..] + text;
    }
  }

  /** The eight two-character escapes of section 7 of RFC 8259. */
  lemma ShortEscapesRead(rest: string)
    ensures ParseChar("\\\"" + rest) == Some(Parsed('"', rest)) && ParseChar("\\\\" + rest) == Some(Parsed('\\', rest))
    ensures ParseChar("\\/" + rest) == Some(Parsed('/', rest)) && ParseChar("\\n" + rest) == Some(Parsed('\n', rest))
    ensures ParseChar("\\r" + rest) == Some(Parsed('\r', rest)) && ParseChar("\\t" + rest) == Some(Parsed('\t', rest))
    ensures ParseChar("\\b" + rest) == Some(Parsed('\U{8}', rest)) && ParseChar("\\f" + rest) == Some(Parsed('\U{C}', rest))
  {
    assert ("\\\"" + rest)[2..] == rest && ("\\\\" + rest)[2..] == rest && ("\\/" + rest)[2..] == rest;
    assert ("\\n" + rest)[2..] == rest && ("\\r" + rest)[2..] == rest && ("\\t" + rest)[2..] == rest;
    assert ("\\b" + rest)[2..] == rest && ("\\f" + rest)[2..] == rest;
  }

  /** The sixteen digits of an escape, in either case. */
  lemma HexDigitsRead(v: nat)
    ensures forall c :: IsHex(c) <==> '0' <= c <= '9' || 'a' <= c <= 'f' || 'A' <= c <= 'F'
    ensures v < 10 ==> HexValue('0' + v as char) == v
    ensures v < 6 ==> HexValue('a' + v as char) == HexValue('A' + v as char) == 10 + v
  {
  }
}
