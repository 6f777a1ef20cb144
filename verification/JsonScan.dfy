/**
 * What every JSON text has in common, read character by character: quotes and braces that match. It
 * tells which texts glued from a fragment of one object and a whole other one are no JSON.
 */
module JsonScan {
  import opened Text
  import opened Json

  /** Outside a literal, inside one, after a backslash in one, or right behind one, at a depth of braces. */
  datatype Scanner = Out(depth: int) | In(depth: int) | Esc(depth: int) | Closed(depth: int) | Dead

  function Next(st: Scanner, c: char): Scanner {
    match st
    case Out(d) => if c == '"' then In(d) else if c == '{' then Out(d + 1) else if c == '}' then Out(d - 1) else st
    case In(d) => if c == '"' then Closed(d) else if c == '\\' then Esc(d) else st
    case Esc(d) => In(d)
    case Closed(d) =>
      if IsWs(c) then st
      else if c == ':' || c == ',' || c == ']' then Out(d)
      else if c == '}' then Out(d - 1)
      else Dead
    case Dead => Dead
  }

  function Scan(st: Scanner, s: string): Scanner
    decreases |s|
  {
    if s == [] then st else Scan(Next(st, s[0]), s[1..])
  }

  lemma {:induction false} ScanJoin(st: Scanner, a: string, b: string)
    ensures Scan(st, a + b) == Scan(Scan(st, a), b)
    decreases |a|
  {
    hide Next;
    if a == [] {
      assert a + b == b;
    } else {
      ScanJoin(Next(st, a[0]), a[1..], b);
      assert (a + b)[1..] == a[1..] + b;
    }
  }

  lemma {:induction false} ScanDead(s: string)
    ensures Scan(Dead, s) == Dead
    decreases |s|
  {
    if s != [] {
      ScanDead(s[1..]);
    }
  }

  // ---------------------------------------------------------------------------
  // Every JSON text scans
  // ---------------------------------------------------------------------------

  lemma {:induction false} ScanWs(st: Scanner, s: string)
    requires st.Out? || st.Closed?
    ensures Scan(st, s) == Scan(st, SkipWs(s))
  {
    if s != [] && IsWs(s[0]) {
      ScanWs(st, s[1..]);
    }
  }

  predicate Bare(c: char) {
    c != '"' && c != '{' && c != '}' && c != '\\'
  }

  lemma {:induction false} ScanBare(st: Scanner, s: string, n: nat)
    requires n <= |s| && (st.Out? || st.In?) && forall i :: 0 <= i < n ==> Bare(s[i])
    ensures Scan(st, s) == Scan(st, s[n..])
    decreases n
  {
    if n > 0 {
      assert forall i :: 0 <= i < n - 1 ==> s[1..][i] == s[i + 1];
      ScanBare(st, s[1..], n - 1);
      assert s[1..][n - 1..] == s[n..];
    }
  }

  lemma ScanTwo(st: Scanner, s: string)
    requires |s| >= 2
    ensures Scan(st, s) == Scan(Next(Next(st, s[0]), s[1]), s[2..])
  {
    hide Next;
    assert s[1..][0] == s[1] && s[1..][1..] == s[2..];
  }

  lemma ScanUnit(d: int, s: string)
    requires |s| >= 6 && s[0] == '\\' && s[1] == 'u' && FourHex(s[2..])
    ensures Scan(In(d), s) == Scan(In(d), s[6..])
  {
    hide Scan;
    ScanTwo(In(d), s);
    var t := s[2..];
    ScanBare(In(d), t, 4);
    assert t[4..] == s[6..];
  }

  lemma ScanChar(d: int, s: string)
    requires ParseChar(s).Some?
    ensures Scan(In(d), s) == Scan(In(d), ParseChar(s).value.rest)
  {
    hide HexUnit, SimpleEscape;
    if s[0] == '\\' {
      if s[1] != 'u' {
        ScanTwo(In(d), s);
      } else {
        ScanUnit(d, s);
        if ParseChar(s).value.rest != s[6..] {
          var t := s[6..];
          assert t[0] == s[6] && t[1] == s[7] && t[2..] == s[8..] && t[6..] == s[12..];
          ScanUnit(d, t);
        }
      }
    }
  }

  lemma {:induction false} ScanString(d: int, s: string)
    requires ParseString(s).Some?
    ensures Scan(In(d), s) == Scan(Closed(d), ParseString(s).value.rest)
    decreases |s|
  {
    hide ParseChar;
    if s == [] || s[0] != '"' {
      ScanChar(d, s);
      ScanString(d, ParseChar(s).value.rest);
    }
  }

  predicate NumberChar(c: char) {
    IsDigit(c) || c == '.' || c == 'e' || c == 'E' || c == '+' || c == '-'
  }

  lemma DigitsRun(s: string)
    ensures forall i :: 0 <= i < DigitRun(s) ==> NumberChar(s[i])
  {
    var n := DigitRun(s);
    forall i | 0 <= i < n
      ensures NumberChar(s[i])
    {
      assert s[..n][i] in s[..n];
    }
  }

  lemma FractionChars(s: string)
    ensures forall i :: 0 <= i < FractionRun(s) ==> NumberChar(s[i])
  {
    if FractionRun(s) > 0 {
      DigitsRun(s[1..]);
      forall i | 1 <= i < FractionRun(s)
        ensures NumberChar(s[i])
      {
        assert s[i] == s[1..][i - 1];
      }
    }
  }

  lemma ExponentChars(s: string)
    ensures forall i :: 0 <= i < ExponentRun(s) ==> NumberChar(s[i])
  {
    if ExponentRun(s) > 0 {
      var at := if |s| >= 2 && (s[1] == '-' || s[1] == '+') then 2 else 1;
      DigitsRun(s[at..]);
      forall i | at <= i < ExponentRun(s)
        ensures NumberChar(s[i])
      {
        assert s[i] == s[at..][i - at];
      }
    }
  }

  lemma NumberChars(s: string)
    ensures forall i :: 0 <= i < NumberRun(s) ==> NumberChar(s[i])
  {
    hide DigitRun, FractionRun, ExponentRun, WholeRun, NumberChar;
    var whole := WholeRun(s);
    var tail := s[whole..];
    var part := FractionRun(tail);
    DigitsRun(s);
    FractionChars(tail);
    ExponentChars(tail[part..]);
    forall i | 0 <= i < NumberRun(s)
      ensures NumberChar(s[i])
    {
      if whole <= i {
        assert s[i] == tail[i - whole];
        if whole + part <= i {
          assert s[i] == tail[part..][i - whole - part];
        }
      }
    }
  }

  lemma ScanMagnitude(d: int, s: string, negative: bool)
    requires ParseMagnitude(s, negative).Some?
    ensures Scan(Out(d), s) == Scan(Out(d), ParseMagnitude(s, negative).value.rest)
  {
    hide Scan, NumberRun, WholeRun;
    NumberChars(s);
    ScanBare(Out(d), s, NumberRun(s));
  }

  lemma ScanWord(d: int, s: string, word: string, v: Json)
    requires word != [] && ParseWord(s, word, v).Some? && forall c :: c in word ==> Bare(c)
    ensures Scan(Out(d), s) == Scan(Out(d), ParseWord(s, word, v).value.rest)
  {
    forall i | 0 <= i < |word|
      ensures Bare(s[i])
    {
      assert s[i] == word[i] && word[i] in word;
    }
    ScanBare(Out(d), s, |word|);
  }

  lemma ScanNumber(d: int, s: string)
    requires ParseNumber(s).Some?
    ensures Scan(Out(d), s) == Scan(Out(d), ParseNumber(s).value.rest)
  {
    hide ParseMagnitude, ParseWord;
    if s[0] != '-' {
      ScanMagnitude(d, s, false);
    } else if |s| > 1 && s[1] == 'I' {
      ScanWord(d, s, "-Infinity", Float("-Infinity"));
    } else {
      ScanMagnitude(d, s[1..], true);
    }
  }

  /** A value leaves the scanner where it found it, or right behind a closing quote there. */
  predicate SameDepth(st: Scanner, d: int) {
    st == Out(d) || st == Closed(d)
  }

  lemma {:induction false} ScanValue(d: int, s: string) returns (st: Scanner)
    requires ParseValue(s).Some?
    ensures SameDepth(st, d) && Scan(Out(d), s) == Scan(st, ParseValue(s).value.rest)
    decreases |s|, 1
  {
    hide ParseValue, ParseString, ParseObject, ParseArray, ParseWord, ParseNumber, SkipWs;
    st := Out(d);
    if s == [] {
      assert false by { NoValue(s); }
    } else if s[0] == '"' {
      QuotedValue(s);
      ScanString(d, s[1..]);
      st := Closed(d);
    } else if s[0] == '{' {
      ObjectValue(s);
      ScanWs(Out(d + 1), s[1..]);
      ScanObject(d, SkipWs(s[1..]));
    } else if s[0] == '[' {
      ArrayValue(s);
      ScanWs(Out(d), s[1..]);
      ScanArray(d, SkipWs(s[1..]));
    } else if OpensWord(s[0]) {
      WordOpens(s);
      ScanWord(d, s, WordFor(s[0]).0, WordFor(s[0]).1);
    } else {
      NumberValue(s);
      ScanNumber(d, s);
    }
  }

  lemma NoValue(s: string)
    requires s == []
    ensures ParseValue(s) == None
  {
  }

  lemma {:induction false} ScanObject(d: int, s: string)
    requires ParseObject(s).Some?
    ensures Scan(Out(d + 1), s) == Scan(Out(d), ParseObject(s).value.rest)
    decreases |s|, 3
  {
    hide ParseMembers;
    if s == [] || s[0] != '}' {
      ScanMembers(d, s);
    }
  }

  lemma {:induction false} ScanArray(d: int, s: string)
    requires ParseArray(s).Some?
    ensures Scan(Out(d), s) == Scan(Out(d), ParseArray(s).value.rest)
    decreases |s|, 3
  {
    hide ParseItems;
    if s == [] || s[0] != ']' {
      ScanItems(d, s);
    }
  }

  lemma {:induction false} ScanMembers(d: int, s: string)
    requires ParseMembers(s).Some?
    ensures Scan(Out(d + 1), s) == Scan(Out(d), ParseMembers(s).value.rest)
    decreases |s|, 0
  {
    hide ParseValue, ParseString, SkipWs;
    var afterKey := ParseString(s[1..]).value.rest;
    var colon := SkipWs(afterKey);
    var start := SkipWs(colon[1..]);
    var afterValue := ParseValue(start).value.rest;
    var next := SkipWs(afterValue);
    ScanString(d + 1, s[1..]);
    ScanWs(Closed(d + 1), afterKey);
    ScanWs(Out(d + 1), colon[1..]);
    var st := ScanValue(d + 1, start);
    ScanWs(st, afterValue);
    if next[0] == ',' {
      ScanWs(Out(d + 1), next[1..]);
      ScanMembers(d, SkipWs(next[1..]));
    }
  }

  lemma {:induction false} ScanItems(d: int, s: string)
    requires ParseItems(s).Some?
    ensures Scan(Out(d), s) == Scan(Out(d), ParseItems(s).value.rest)
    decreases |s|, 2
  {
    hide ParseValue, SkipWs;
    var afterValue := ParseValue(s).value.rest;
    var next := SkipWs(afterValue);
    var st := ScanValue(d, s);
    ScanWs(st, afterValue);
    if next[0] == ',' {
      ScanWs(Out(d), next[1..]);
      ScanItems(d, SkipWs(next[1..]));
    }
  }

  /** Whatever `json.loads` accepts, it scans to depth zero outside every literal. */
  lemma EveryTextScans(text: string)
    requires Loads(text).Some?
    ensures SameDepth(Scan(Out(0), text), 0)
  {
    hide ParseValue, SkipWs;
    ScanWs(Out(0), text);
    var st := ScanValue(0, SkipWs(text));
    ScanWs(st, ParseValue(SkipWs(text)).value.rest);
  }

  // ---------------------------------------------------------------------------
  // A printed object never comes back to the outside before its end
  // ---------------------------------------------------------------------------

  /** No state before the end is the outermost one. */
  predicate Stays(st: Scanner, s: string)
    decreases |s|
  {
    s == [] || (st != Out(0) && Stays(Next(st, s[0]), s[1..]))
  }

  predicate Leads(st: Scanner, s: string, end: Scanner) {
    Stays(st, s) && Scan(st, s) == end
  }

  lemma {:induction false} LeadsJoin(st: Scanner, a: string, mid: Scanner, b: string, end: Scanner)
    requires Leads(st, a, mid) && Leads(mid, b, end)
    ensures Leads(st, a + b, end)
    decreases |a|
  {
    hide Next;
    if a == [] {
      assert a + b == b;
    } else {
      LeadsJoin(Next(st, a[0]), a[1..], mid, b, end);
      assert (a + b)[1..] == a[1..] + b;
    }
  }

  lemma {:induction false} StaysBefore(st: Scanner, s: string, n: nat)
    requires Stays(st, s) && n < |s|
    ensures Scan(st, s[..n]) != Out(0)
    decreases n
  {
    hide Next;
    if n == 0 {
      assert s[..0] == [];
    } else {
      StaysBefore(Next(st, s[0]), s[1..], n - 1);
      assert s[..n][1..] == s[1..][..n - 1];
    }
  }

  lemma LeadsOne(st: Scanner, c: char)
    requires st != Out(0)
    ensures Leads(st, [c], Next(st, c))
  {
    hide Next;
    assert [c][1..] == [];
    assert Scan(Next(st, c), []) == Next(st, c) && Stays(Next(st, c), []);
  }

  lemma {:induction false} LeadsBare(st: Scanner, s: string)
    requires st == Out(1) || st == In(1)
    requires forall c :: c in s ==> Bare(c)
    ensures Leads(st, s, st)
  {
    if s != [] {
      assert s[0] in s;
      LeadsBare(st, s[1..]);
    }
  }

  lemma LeadsPair(c: char)
    ensures Leads(In(1), ['\\', c], In(1))
  {
    LeadsOne(In(1), '\\');
    LeadsOne(Esc(1), c);
    LeadsJoin(In(1), ['\\'], Esc(1), [c], In(1));
    assert ['\\'] + [c] == ['\\', c];
  }

  lemma LeadsUnit(u: nat)
    requires u < 0x10000
    ensures Leads(In(1), UnitEscape(u), In(1))
  {
    hide Leads;
    var s := UnitEscape(u);
    LeadsPair('u');
    LeadsBare(In(1), s[2..]);
    LeadsJoin(In(1), ['\\', 'u'], In(1), s[2..], In(1));
    assert s == ['\\', 'u'] + s[2..];
  }

  lemma LeadsEscape(c: char)
    ensures Leads(In(1), EscapeChar(c), In(1))
  {
    hide Leads, UnitEscape;
    var s := EscapeChar(c);
    if c == '"' || c == '\\' || c == '\n' || c == '\r' || c == '\t' || c == '\U{C}' || c == '\U{8}' {
      LeadsPair(s[1]);
      assert s == ['\\', s[1]];
    } else if ' ' <= c <= '~' {
      if Bare(c) {
        LeadsBare(In(1), [c]);
      } else {
        LeadsOne(In(1), c);
      }
    } else if (c as int) < 0x10000 {
      LeadsUnit(c as int);
    } else {
      var high, low := 0xD800 + (c as int - 0x10000) / 0x400, 0xDC00 + (c as int - 0x10000) % 0x400;
      LeadsUnit(high);
      LeadsUnit(low);
      LeadsJoin(In(1), UnitEscape(high), In(1), UnitEscape(low), In(1));
    }
  }

  lemma {:induction false} LeadsText(text: string)
    ensures Leads(In(1), Escape(text), In(1))
  {
    hide EscapeChar;
    if text != [] {
      LeadsEscape(text[0]);
      LeadsText(text[1..]);
      LeadsJoin(In(1), EscapeChar(text[0]), In(1), Escape(text[1..]), In(1));
    }
  }

  lemma LeadsQuote(text: string)
    ensures Leads(Out(1), Quote(text), Closed(1))
  {
    hide Leads, Escape;
    LeadsOne(Out(1), '"');
    LeadsText(text);
    LeadsOne(In(1), '"');
    LeadsJoin(Out(1), "\"", In(1), Escape(text), In(1));
    LeadsJoin(Out(1), "\"" + Escape(text), In(1), "\"", Closed(1));
  }

  lemma LeadsFlat(v: Json) returns (st: Scanner)
    requires Flat(v)
    ensures SameDepth(st, 1) && Leads(Out(1), DumpFlat(v), st)
  {
    hide Leads, Quote, Decimal;
    st := Out(1);
    match v
    case Null => LeadsBare(Out(1), "null");
    case Int(i) =>
      IntTextIsPlain(i);
      LeadsBare(Out(1), IntText(i));
    case Str(s) =>
      LeadsQuote(s);
      st := Closed(1);
  }

  lemma LeadsColon()
    ensures Leads(Closed(1), ": ", Out(1))
  {
    LeadsOne(Closed(1), ':');
    LeadsOne(Out(1), ' ');
    LeadsJoin(Closed(1), ":", Out(1), " ", Out(1));
    assert ":" + " " == ": ";
  }

  lemma LeadsComma(st: Scanner)
    requires SameDepth(st, 1)
    ensures Leads(st, ", ", Out(1))
  {
    LeadsOne(st, ',');
    LeadsOne(Out(1), ' ');
    LeadsJoin(st, ",", Out(1), " ", Out(1));
    assert "," + " " == ", ";
  }

  lemma {:induction false} LeadsMembers(ms: seq<(string, Json)>)
    requires ms != [] && FlatMembers(ms)
    ensures Leads(Out(1), DumpMembers(ms), Out(0))
  {
    hide Leads, Quote, DumpFlat;
    var key, v := Quote(ms[0].0), DumpFlat(ms[0].1);
    LeadsQuote(ms[0].0);
    LeadsColon();
    LeadsJoin(Out(1), key, Closed(1), ": ", Out(1));
    var st := LeadsFlat(ms[0].1);
    LeadsJoin(Out(1), key + ": ", Out(1), v, st);
    if |ms| == 1 {
      LeadsOne(st, '}');
    } else {
      LeadsComma(st);
      LeadsMembers(ms[1..]);
      LeadsJoin(st, ", ", Out(1), DumpMembers(ms[1..]), Out(0));
    }
    LeadsJoin(Out(1), key + ": " + v, st, DumpRest(ms), Out(0));
  }

  lemma ObjectScans(ms: seq<(string, Json)>)
    requires ms != [] && FlatMembers(ms)
    ensures Scan(Out(0), DumpObject(ms)) == Out(0)
    ensures forall n :: 0 < n < |DumpObject(ms)| ==> Scan(Out(0), DumpObject(ms)[..n]) != Out(0)
  {
    hide DumpMembers;
    var s, body := DumpObject(ms), DumpMembers(ms);
    LeadsMembers(ms);
    assert s[1..] == body;
    forall n | 0 < n < |s|
      ensures Scan(Out(0), s[..n]) != Out(0)
    {
      StaysBefore(Out(1), body, n - 1);
      assert s[..n][1..] == body[..n - 1];
    }
  }

  // ---------------------------------------------------------------------------
  // A fragment and an object
  // ---------------------------------------------------------------------------

  function Deeper(st: Scanner, k: int): Scanner {
    match st
    case Out(d) => Out(d + k)
    case In(d) => In(d + k)
    case Esc(d) => Esc(d + k)
    case Closed(d) => Closed(d + k)
    case Dead => Dead
  }

  lemma {:induction false} ScanDeeper(st: Scanner, s: string, k: int)
    ensures Scan(Deeper(st, k), s) == Deeper(Scan(st, s), k)
    decreases |s|
  {
    if s != [] {
      ScanDeeper(Next(st, s[0]), s[1..], k);
    }
  }

  /** A text that opens an object whose first key begins with a letter of no meaning to JSON. */
  predicate OpensObject(u: string) {
    |u| >= 3 && u[0] == '{' && u[1] == '"' && Next(Closed(0), u[2]) == Dead
  }

  lemma OpeningEndsALiteral(st: Scanner, u: string)
    requires OpensObject(u) && !st.Out?
    ensures Scan(st, u) == Dead
  {
    var a := Next(st, u[0]);
    var b := Next(a, u[1]);
    ScanTwo(st, u);
    assert u[2..][0] == u[2];
    assert b == Dead || b.Closed?;
    ScanDead(u[2..][1..]);
  }

  /** No proper, non-empty prefix of a printed object can be completed to JSON by another whole object. */
  lemma FragmentThenObjectFails(ms: seq<(string, Json)>, n: nat, u: seq<(string, Json)>)
    requires ms != [] && FlatMembers(ms) && 0 < n < |DumpObject(ms)|
    requires u != [] && FlatMembers(u) && OpensObject(DumpObject(u))
    ensures Loads(DumpObject(ms)[..n] + DumpObject(u)) == None
  {
    hide Loads, DumpObject, Scan, Next, OpensObject;
    var t, w := DumpObject(ms)[..n], DumpObject(u);
    var st := Scan(Out(0), t);
    ObjectScans(ms);
    ObjectScans(u);
    ScanJoin(Out(0), t, w);
    if st.Out? {
      ScanDeeper(Out(0), w, st.depth);
    } else {
      OpeningEndsALiteral(st, w);
    }
    if Loads(t + w).Some? {
      EveryTextScans(t + w);
    }
  }
}
