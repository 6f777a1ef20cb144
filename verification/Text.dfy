/** The parts of Python's `str` and `int` that the service leans on. */
module Text {

  datatype Option<+T> = None | Some(value: T)

  // ---------------------------------------------------------------------------
  // Whitespace
  // ---------------------------------------------------------------------------

  /** The characters `str.strip()` and `str.split()` treat as blank. */
  predicate IsSpace(c: char) {
    || '\t' <= c <= '\r'
    || '\U{1C}' <= c <= ' '
    || c == '\U{85}' || c == '\U{A0}' || c == '\U{1680}'
    || '\U{2000}' <= c <= '\U{200A}'
    || c == '\U{2028}' || c == '\U{2029}' || c == '\U{202F}' || c == '\U{205F}' || c == '\U{3000}'
  }

  function LStrip(s: string): string {
    if s != [] && IsSpace(s[0]) then LStrip(s[1..]) else s
  }

  function RStrip(s: string): string {
    if s != [] && IsSpace(s[|s| - 1]) then RStrip(s[..|s| - 1]) else s
  }

  /** `s.strip()` */
  function Strip(s: string): string {
    RStrip(LStrip(s))
  }

  /** A text that `strip` leaves alone. */
  predicate Trimmed(s: string) {
    s != [] ==> !IsSpace(s[0]) && !IsSpace(s[|s| - 1])
  }

  lemma {:induction false} RStripIsPrefix(s: string)
    ensures RStrip(s) <= s
    ensures RStrip(s) != [] ==> !IsSpace(RStrip(s)[|RStrip(s)| - 1])
  {
    if s != [] && IsSpace(s[|s| - 1]) {
      RStripIsPrefix(s[..|s| - 1]);
    }
  }

  lemma {:induction false} LStripStart(s: string)
    ensures LStrip(s) != [] ==> !IsSpace(LStrip(s)[0])
  {
    if s != [] && IsSpace(s[0]) {
      LStripStart(s[1..]);
    }
  }

  lemma StripTrims(s: string)
    ensures Trimmed(Strip(s))
    ensures Trimmed(s) ==> Strip(s) == s
  {
    LStripStart(s);
    RStripIsPrefix(LStrip(s));
  }

  // ---------------------------------------------------------------------------
  // Searching and splitting
  // ---------------------------------------------------------------------------

  predicate StartsWith(s: string, prefix: string) {
    prefix <= s
  }

  predicate Contains(s: string, part: string) {
    part <= s || (s != [] && Contains(s[1..], part))
  }

  /** `str.lower()` on ASCII letters. */
  function LowerChar(c: char): char {
    if 'A' <= c <= 'Z' then c + ('a' - 'A') else c
  }

  function UpperChar(c: char): char {
    if 'a' <= c <= 'z' then c - ('a' - 'A') else c
  }

  function Lower(s: string): (r: string)
    ensures |r| == |s|
  {
    seq(|s|, i requires 0 <= i < |s| => LowerChar(s[i]))
  }

  function Upper(s: string): (r: string)
    ensures |r| == |s|
  {
    seq(|s|, i requires 0 <= i < |s| => UpperChar(s[i]))
  }

  /** `s.split(c)` for a one-character separator: always at least one piece. */
  function Split(s: string, c: char): (parts: seq<string>)
    ensures |parts| > 0
  {
    if s == [] then [[]]
    else
      var tail := Split(s[1..], c);
      if s[0] == c then [[]] + tail else [[s[0]] + tail[0]] + tail[1..]
  }

  /** The leading run of non-blank characters. */
  function Word(s: string): (w: string)
    ensures |w| <= |s|
  {
    if s == [] || IsSpace(s[0]) then [] else [s[0]] + Word(s[1..])
  }

  /** `s.split()`: the maximal runs of non-blank characters. */
  function Words(s: string): (ws: seq<string>)
    ensures forall w :: w in ws ==> w != []
    decreases |s|
  {
    if s == [] then []
    else if IsSpace(s[0]) then Words(s[1..])
    else [Word(s)] + Words(s[|Word(s)|..])
  }

  lemma {:induction false} SplitJoin(a: string, c: char, b: string)
    requires c !in a
    ensures Split(a + [c] + b, c) == [a] + Split(b, c)
  {
    if a == [] {
      assert a + [c] + b == [c] + b;
    } else {
      SplitJoin(a[1..], c, b);
      assert (a + [c] + b)[1..] == a[1..] + [c] + b;
      assert [a[0]] + a[1..] == a;
    }
  }

  lemma {:induction false} SplitWhole(a: string, c: char)
    requires c !in a
    ensures Split(a, c) == [a]
  {
    if a != [] {
      SplitWhole(a[1..], c);
      assert [a[0]] + a[1..] == a;
    }
  }

  // ---------------------------------------------------------------------------
  // Numbers
  // ---------------------------------------------------------------------------

  predicate IsDigit(c: char) {
    '0' <= c <= '9'
  }

  function DigitValue(c: char): (v: nat)
    requires IsDigit(c)
    ensures v < 10
  {
    (c - '0') as nat
  }

  function DigitChar(v: nat): (c: char)
    requires v < 10
    ensures IsDigit(c) && DigitValue(c) == v
  {
    '0' + (v as char)
  }

  /** `s.isdigit()` over ASCII. */
  predicate AllDigits(s: string) {
    s != [] && forall c :: c in s ==> IsDigit(c)
  }

  /** `str(n)` for a natural number: no leading zeros. */
  function Decimal(n: nat): (s: string)
    ensures s != []
  {
    if n < 10 then [DigitChar(n)] else Decimal(n / 10) + [DigitChar(n % 10)]
  }

  function DecimalValue(s: string): nat
    requires forall c :: c in s ==> IsDigit(c)
  {
    if s == [] then 0 else DecimalValue(s[..|s| - 1]) * 10 + DigitValue(s[|s| - 1])
  }

  lemma {:induction false} DecimalReads(n: nat)
    ensures AllDigits(Decimal(n))
    ensures DecimalValue(Decimal(n)) == n
    ensures |Decimal(n)| > 1 ==> Decimal(n)[0] != '0'
    ensures n > 0 ==> Decimal(n)[0] != '0'
  {
    if n < 10 {
      assert Decimal(n)[..0] == [];
    } else {
      DecimalReads(n / 10);
      assert Decimal(n)[..|Decimal(n)| - 1] == Decimal(n / 10);
    }
  }

  /** `str(i)` for any integer. */
  function IntText(i: int): string {
    if i < 0 then "-" + Decimal(-i) else Decimal(i)
  }

  /** Digits with single underscores allowed between them, as `int()` reads them. */
  predicate DigitGroups(s: string) {
    && s != [] && IsDigit(s[0])
    && (|s| > 1 ==> DigitGroups(if s[1] == '_' then s[2..] else s[1..]))
  }

  function DropUnderscores(s: string): string {
    if s == [] then [] else (if s[0] == '_' then [] else [s[0]]) + DropUnderscores(s[1..])
  }

  lemma {:induction false} DigitGroupsAreDigits(s: string)
    requires DigitGroups(s)
    ensures AllDigits(DropUnderscores(s))
    decreases |s|
  {
    assert s == [s[0]] + s[1..];
    if |s| > 1 {
      if s[1] == '_' {
        DigitGroupsAreDigits(s[2..]);
        assert s[1..][1..] == s[2..];
      } else {
        DigitGroupsAreDigits(s[1..]);
      }
    }
  }

  lemma {:induction false} PlainDigitsAreGroups(s: string)
    requires AllDigits(s)
    ensures DigitGroups(s) && DropUnderscores(s) == s
  {
    if |s| > 1 {
      assert s[1] in s;
      PlainDigitsAreGroups(s[1..]);
    }
    assert s == [s[0]] + s[1..];
  }

  function UnsignedInt(s: string): Option<int> {
    if !DigitGroups(s) then None
    else
      DigitGroupsAreDigits(s);
      Some(DecimalValue(DropUnderscores(s)))
  }

  /** `int(s)`, or None where Python raises ValueError. */
  function PyInt(s: string): Option<int> {
    var t := Strip(s);
    if t != [] && t[0] == '-' then
      match UnsignedInt(t[1..]) { case None => None case Some(v) => Some(-v) }
    else if t != [] && t[0] == '+' then
      UnsignedInt(t[1..])
    else
      UnsignedInt(t)
  }

  lemma UnsignedReads(n: nat)
    ensures UnsignedInt(Decimal(n)) == Some(n)
  {
    DecimalReads(n);
    PlainDigitsAreGroups(Decimal(n));
  }

  lemma PlainIsTrimmed(s: string)
    requires s != [] && forall c :: c in s ==> IsDigit(c) || c == '-'
    ensures Strip(s) == s
  {
    assert s[0] in s && s[|s| - 1] in s;
    StripTrims(s);
  }

  lemma IntTextIsPlain(i: int)
    ensures IntText(i) != []
    ensures forall c :: c in IntText(i) ==> IsDigit(c) || c == '-'
    ensures Strip(IntText(i)) == IntText(i)
  {
    DecimalReads(if i < 0 then -i else i);
    PlainIsTrimmed(IntText(i));
  }

  lemma DecimalIsUnsigned(n: nat)
    ensures Decimal(n)[0] != '-' && Decimal(n)[0] != '+'
  {
    DecimalReads(n);
    assert Decimal(n)[0] in Decimal(n);
    assert '0' <= Decimal(n)[0];
  }

  /** `int(str(i)) == i` */
  lemma IntReads(i: int)
    ensures PyInt(IntText(i)) == Some(i)
  {
    IntTextIsPlain(i);
    if i < 0 {
      UnsignedReads(-i);
      assert IntText(i)[1..] == Decimal(-i);
    } else {
      UnsignedReads(i);
      DecimalIsUnsigned(i);
    }
  }

  /** Two PIN texts that `int()` reads as different numbers are different texts. */
  lemma FreshDecimalDiffers(n: nat, pin: string)
    requires PyInt(pin) != Some(n)
    ensures Decimal(n) != pin
  {
    IntReads(n);
  }

  // ---------------------------------------------------------------------------
  // By characters
  // ---------------------------------------------------------------------------

  predicate PlainBlank(c: char) {
    c == ' ' || c == '\t' || c == '\n' || c == '\r' || c == '\U{B}' || c == '\U{C}'
  }

  predicate PlainBlanks(s: string) {
    forall c :: c in s ==> PlainBlank(c)
  }

  /** Blanks, tabs and line breaks around a text go, and nothing else does. */
  lemma {:induction false} BlanksAreStripped(a: string, t: string, b: string)
    requires PlainBlanks(a) && PlainBlanks(b) && Trimmed(t) && t != []
    ensures Strip(a + t + b) == t
    decreases |a| + |b|
  {
    if a != [] {
      assert a[0] in a;
      assert (a + t + b)[1..] == a[1..] + t + b;
      BlanksAreStripped(a[1..], t, b);
    } else {
      assert a + t + b == t + b;
      assert LStrip(t + b) == t + b;
      TrailingBlanksGo(t, b);
    }
  }

  lemma {:induction false} TrailingBlanksGo(t: string, b: string)
    requires PlainBlanks(b) && Trimmed(t) && t != []
    ensures RStrip(t + b) == t
  {
    if b == [] {
      assert t + b == t;
    } else {
      var n := |b| - 1;
      assert b[n] in b;
      assert (t + b)[..|t + b| - 1] == t + b[..n];
      assert forall c :: c in b[..n] ==> c in b;
      TrailingBlanksGo(t, b[..n]);
    }
  }

  /** Case folds letter by letter, and leaves all other ASCII characters. */
  lemma CaseFolds()
    ensures forall c :: 'A' <= c <= 'Z' ==> 'a' <= LowerChar(c) <= 'z' && LowerChar(c) - 'a' == c - 'A'
    ensures forall c :: 'a' <= c <= 'z' ==> 'A' <= UpperChar(c) <= 'Z' && UpperChar(c) - 'A' == c - 'a'
    ensures forall c :: !('A' <= c <= 'Z') ==> LowerChar(c) == c
    ensures forall c :: !('a' <= c <= 'z') ==> UpperChar(c) == c
  {
  }

  lemma DigitsAreTrimmed(s: string)
    requires AllDigits(s)
    ensures Strip(s) == s && s[0] != '-' && s[0] != '+'
  {
    assert s[0] in s;
    assert '0' <= s[0];
    PlainIsTrimmed(s);
  }

  lemma UnsignedDigits(s: string)
    requires AllDigits(s)
    ensures UnsignedInt(s) == Some(DecimalValue(s))
  {
    PlainDigitsAreGroups(s);
  }

  lemma SignedIsTrimmed(c: char, s: string)
    requires AllDigits(s) && (c == '+' || c == '-')
    ensures Strip([c] + s) == [c] + s && ([c] + s)[1..] == s
  {
    assert s[|s| - 1] in s;
    StripTrims([c] + s);
  }

  /** `int()` reads any digits, leading zeros included, with a sign or without. */
  lemma DigitsRead(s: string)
    requires AllDigits(s)
    ensures var v: int := DecimalValue(s);
      PyInt(s) == Some(v) && PyInt("+" + s) == Some(v) && PyInt("-" + s) == Some(-v)
  {
    hide UnsignedInt, Strip, DecimalValue, AllDigits;
    DigitsAreTrimmed(s);
    UnsignedDigits(s);
    SignedIsTrimmed('+', s);
    SignedIsTrimmed('-', s);
  }

  lemma GroupStep(c: char, s: string)
    requires IsDigit(c) && s != []
    ensures DigitGroups([c] + s) <==> DigitGroups(if s[0] == '_' then s[1..] else s)
    ensures DropUnderscores([c] + s) == [c] + DropUnderscores(s)
  {
    var t := [c] + s;
    assert t[1..] == s && t[2..] == s[1..] && t[1] == s[0];
  }

  lemma {:induction false} GroupsJoin(a: string, b: string)
    requires AllDigits(a) && AllDigits(b)
    ensures DigitGroups(a + ("_" + b)) && DropUnderscores(a + ("_" + b)) == a + b
  {
    hide DigitGroups, DropUnderscores;
    var tail := "_" + b;
    assert a[0] in a;
    if |a| == 1 {
      assert a + tail == [a[0]] + tail && tail[1..] == b;
      GroupStep(a[0], tail);
      PlainDigitsAreGroups(b);
      UnderscoreDrops(b);
    } else {
      var rest := a[1..] + tail;
      assert a + tail == [a[0]] + rest && rest[0] == a[1] && a[1] in a;
      GroupStep(a[0], rest);
      GroupsJoin(a[1..], b);
      assert [a[0]] + (a[1..] + b) == a + b;
    }
  }

  lemma UnderscoreDrops(b: string)
    ensures DropUnderscores("_" + b) == DropUnderscores(b)
  {
    assert ("_" + b)[1..] == b;
  }

  lemma JoinedDigits(a: string, b: string)
    requires AllDigits(a) && AllDigits(b)
    ensures AllDigits(a + b)
  {
  }

  /** Groups of digits are joined at an underscore. */
  lemma UnderscoreReads(a: string, b: string)
    requires AllDigits(a) && AllDigits(b)
    ensures AllDigits(a + b)
    ensures PyInt(a + ("_" + b)) == Some(DecimalValue(a + b))
  {
    hide DigitGroups, DropUnderscores, DecimalValue, Strip;
    var s := a + ("_" + b);
    JoinedDigits(a, b);
    GroupsJoin(a, b);
    assert b[|b| - 1] in b && a[0] in a;
    assert s[0] == a[0] && s[|s| - 1] == b[|b| - 1] && '0' <= a[0];
    StripTrims(s);
  }

  /** What is no number: nothing, a lone sign, and underscores at an end. */
  lemma NoNumbers()
    ensures PyInt("") == None && PyInt("-") == None && PyInt("_1") == None && PyInt("1_") == None && PyInt("1.5") == None
  {
    StripTrims("");
    StripTrims("-");
    StripTrims("_1");
    StripTrims("1_");
    StripTrims("1.5");
    assert "-"[1..] == [] && "1_"[2..] == [] && "1.5"[1..] == ".5";
  }
}
