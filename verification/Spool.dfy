/** spool.py: punches held on disk, one JSON line each. */
module Spool {
  import opened Text
  import opened TextLines
  import opened Json
  import opened JsonScan
  import opened Punches

  // ---------------------------------------------------------------------------
  // The file as text
  // ---------------------------------------------------------------------------

  /** A drained batch, or an exception that `drain` lets through. */
  datatype Drained = Batch(punches: seq<Punch>) | Escaped

  function Join(a: Drained, b: Drained): Drained {
    if a.Batch? && b.Batch? then Batch(a.punches + b.punches) else Escaped
  }

  function ReadLine(line: string): Drained {
    match FromJson(line)
    case Good(p) => Batch([p])
    case Bad => Batch([])
    case Raises => Escaped
  }

  function ReadLines(lines: seq<string>): Drained {
    if lines == [] then Batch([]) else Join(ReadLine(lines[0]), ReadLines(lines[1..]))
  }

  /** Everything `drain` recovers from a file's text. */
  function DrainText(text: string): Drained {
    ReadLines(Kept(Lines(text)))
  }

  /** Lines, each closed by a newline. */
  function TextOf(lines: seq<string>): string {
    if lines == [] then [] else lines[0] + "\n" + TextOf(lines[1..])
  }

  function Printed(ps: seq<Punch>): (lines: seq<string>)
    ensures |lines| == |ps|
  {
    if ps == [] then [] else [ToJson(ps[0])] + Printed(ps[1..])
  }

  /** The text that `add` appends. */
  function Render(ps: seq<Punch>): string {
    TextOf(Printed(ps))
  }

  function FileText(file: Option<string>): string {
    match file case None => [] case Some(text) => text
  }

  // ---------------------------------------------------------------------------
  // Lines do not affect each other
  // ---------------------------------------------------------------------------

  lemma JoinAssoc(a: Drained, b: Drained, c: Drained)
    ensures Join(Join(a, b), c) == Join(a, Join(b, c))
    ensures Join(Batch([]), a) == a
  {
    if a.Batch? && b.Batch? && c.Batch? {
      assert a.punches + b.punches + c.punches == a.punches + (b.punches + c.punches);
    }
    assert a.Batch? ==> [] + a.punches == a.punches;
  }

  lemma ReadStep(line: string, rest: seq<string>)
    ensures ReadLines([line] + rest) == Join(ReadLine(line), ReadLines(rest))
  {
    hide ReadLine, Join;
    assert ([line] + rest)[1..] == rest;
  }

  lemma {:induction false} ReadJoin(a: seq<string>, b: seq<string>)
    ensures ReadLines(a + b) == Join(ReadLines(a), ReadLines(b))
  {
    hide ReadLine, Join;
    if a == [] {
      assert a + b == b;
      JoinAssoc(ReadLines(b), ReadLines(b), ReadLines(b));
    } else {
      ReadJoin(a[1..], b);
      assert a + b == [a[0]] + (a[1..] + b);
      ReadStep(a[0], a[1..] + b);
      JoinAssoc(ReadLine(a[0]), ReadLines(a[1..]), ReadLines(b));
    }
  }

  /** What comes before a line break and what comes after it are read independently. */
  lemma DrainIsByLine(a: string, c: char, b: string)
    requires IsBreak(c)
    ensures DrainText(a + [c] + b) == Join(DrainText(a), DrainText(b))
  {
    LinesJoin(a, c, b);
    KeptJoin(Lines(a), Lines(b));
    ReadJoin(Kept(Lines(a)), Kept(Lines(b)));
  }

  lemma LineOutcome(line: string)
    ensures FromJson(line).Good? ==> ReadLine(line) == Batch([FromJson(line).punch])
    ensures FromJson(line).Bad? ==> ReadLine(line) == Batch([])
    ensures FromJson(line).Raises? ==> ReadLine(line) == Escaped
  {
  }

  /** What one turn of the loop in `drain` contributes. */
  function Turn(line: string): Drained {
    if Strip(line) == [] then Batch([]) else ReadLine(Strip(line))
  }

  lemma ReadOne(line: string)
    ensures ReadLines([line]) == ReadLine(line)
  {
    hide ReadLine;
    assert [line][1..] == [];
    var r := ReadLine(line);
    assert r.Batch? ==> r.punches + [] == r.punches;
  }

  lemma TurnOne(line: string)
    ensures ReadLines(Kept([line])) == Turn(line)
  {
    hide ReadLine, Strip;
    KeptOne(line);
    if Strip(line) != [] {
      ReadOne(Strip(line));
    }
  }

  lemma ReadKeptJoin(a: seq<string>, b: seq<string>)
    ensures ReadLines(Kept(a + b)) == Join(ReadLines(Kept(a)), ReadLines(Kept(b)))
  {
    hide ReadLines, Kept;
    KeptJoin(a, b);
    ReadJoin(Kept(a), Kept(b));
  }

  lemma DrainTurn(lines: seq<string>, i: nat)
    requires i < |lines|
    ensures ReadLines(Kept(lines[..i + 1])) == Join(ReadLines(Kept(lines[..i])), Turn(lines[i]))
    ensures Turn(lines[i]) == Escaped ==> ReadLines(Kept(lines)) == Escaped
  {
    hide ReadLines, Kept, Turn;
    assert lines[..i + 1] == lines[..i] + [lines[i]];
    ReadKeptJoin(lines[..i], [lines[i]]);
    TurnOne(lines[i]);
    assert lines[..i + 1] + lines[i + 1..] == lines;
    ReadKeptJoin(lines[..i + 1], lines[i + 1..]);
  }

  /** The outcome of a text that is a single line. */
  lemma DrainOneLine(line: string)
    requires forall c :: c in line ==> !IsBreak(c)
    ensures DrainText(line) == Turn(line)
  {
    OneLine(line);
    TurnOne(line);
  }

  /** An unreadable line anywhere in the file removes itself and nothing else. */
  lemma BadLineRemovesOnlyItself(before: string, line: string, after: string)
    requires forall c :: c in line ==> !IsBreak(c)
    requires Strip(line) == [] || FromJson(Strip(line)) == Bad
    ensures DrainText(before + "\n" + line + "\n" + after) == Join(DrainText(before), DrainText(after))
  {
    DrainIsByLine(before + "\n" + line, '\n', after);
    DrainIsByLine(before, '\n', line);
    DrainOneLine(line);
    JoinAssoc(DrainText(before), Batch([]), DrainText(after));
    JoinAssoc(DrainText(after), Batch([]), Batch([]));
  }

  // ---------------------------------------------------------------------------
  // Round trip
  // ---------------------------------------------------------------------------

  /** A line that is one line of the file and that stripping leaves alone. */
  predicate Plain(line: string) {
    line != [] && Strip(line) == line && '\n' !in line && '\r' !in line
  }

  lemma {:induction false} TextJoin(a: seq<string>, b: seq<string>)
    ensures TextOf(a + b) == TextOf(a) + TextOf(b)
  {
    hide ToJson;
    if a == [] {
      assert a + b == b;
    } else {
      TextJoin(a[1..], b);
      assert (a + b)[1..] == a[1..] + b;
    }
  }

  lemma {:induction false} KeptText(lines: seq<string>, tail: string)
    requires forall i :: 0 <= i < |lines| ==> Plain(lines[i])
    ensures Kept(Lines(TextOf(lines) + tail)) == lines + Kept(Lines(tail))
  {
    hide Plain, Kept, Lines;
    if lines == [] {
      assert TextOf(lines) + tail == tail;
      assert [] + Kept(Lines(tail)) == Kept(Lines(tail));
    } else {
      var rest := TextOf(lines[1..]) + tail;
      assert TextOf(lines) + tail == lines[0] + "\n" + rest;
      KeptText(lines[1..], tail);
      KeptLine(lines[0], rest);
      assert [lines[0]] + lines[1..] == lines;
    }
  }

  lemma KeptLine(line: string, rest: string)
    requires Plain(line)
    ensures Kept(Lines(line + "\n" + rest)) == [line] + Kept(Lines(rest))
  {
    hide Strip;
    OneLine(line);
    LinesJoin(line, '\n', rest);
    KeptJoin([line], Lines(rest));
    KeptOne(line);
  }

  lemma {:induction false} PrintedArePlain(ps: seq<Punch>)
    ensures forall i :: 0 <= i < |ps| ==> Printed(ps)[i] == ToJson(ps[i]) && Plain(Printed(ps)[i])
  {
    hide ToJson;
    if ps != [] {
      SpoolLineIsPlain(ps[0]);
      PrintedArePlain(ps[1..]);
    }
  }

  lemma {:induction false} PrintedJoin(a: seq<Punch>, b: seq<Punch>)
    ensures Printed(a + b) == Printed(a) + Printed(b)
  {
    hide ToJson;
    if a == [] {
      assert a + b == b;
    } else {
      PrintedJoin(a[1..], b);
      assert (a + b)[1..] == a[1..] + b;
    }
  }

  lemma RenderJoin(a: seq<Punch>, b: seq<Punch>)
    ensures Render(a + b) == Render(a) + Render(b)
  {
    PrintedJoin(a, b);
    TextJoin(Printed(a), Printed(b));
  }

  lemma RenderOneMore(ps: seq<Punch>, i: nat)
    requires i < |ps|
    ensures Render(ps[..i + 1]) == Render(ps[..i]) + (ToJson(ps[i]) + "\n")
  {
    hide ToJson;
    var line := ToJson(ps[i]);
    RenderJoin(ps[..i], [ps[i]]);
    assert ps[..i + 1] == ps[..i] + [ps[i]];
    assert Printed([ps[i]]) == [line];
    assert TextOf([line]) == line + "\n";
  }

  lemma {:induction false} PrintedReadBack(ps: seq<Punch>)
    ensures ReadLines(Printed(ps)) == Batch(ps)
  {
    hide ToJson;
    if ps != [] {
      var line := ToJson(ps[0]);
      SpoolLineReadsBack(ps[0]);
      PrintedReadBack(ps[1..]);
      assert [line] + Printed(ps[1..]) == Printed(ps);
      assert Printed(ps)[1..] == Printed(ps[1..]);
      assert [ps[0]] + ps[1..] == ps;
    }
  }

  /** What was added is drained whole and in order, and nothing is counted twice or missed. */
  lemma DrainRestores(ps: seq<Punch>)
    ensures DrainText(Render(ps)) == Batch(ps)
    ensures |Kept(Lines(Render(ps)))| == |ps|
  {
    PrintedArePlain(ps);
    KeptText(Printed(ps), []);
    NothingKept();
    assert Render(ps) + [] == Render(ps);
    assert Printed(ps) + [] == Printed(ps);
    PrintedReadBack(ps);
  }

  // ---------------------------------------------------------------------------
  // A file cut short
  // ---------------------------------------------------------------------------

  /** How many of the lines are whole within the first `n` characters of their text. */
  function Whole(lines: seq<string>, n: nat): (k: nat)
    ensures k <= |lines|
  {
    if lines == [] || n < |lines[0]| then 0
    else if n == |lines[0]| then 1
    else 1 + Whole(lines[1..], n - |lines[0]| - 1)
  }

  /** Text that is the whole lines among `lines[..k]`, then less than one more line or no newline at all. */
  predicate CutAt(lines: seq<string>, k: nat, cut: string, torn: string)
    requires k <= |lines|
  {
    && (cut == TextOf(lines[..k]) + torn
        || (k > 0 && cut == TextOf(lines[..k - 1]) + lines[k - 1] && torn == []))
    && (torn != [] ==> k < |lines| && |torn| < |lines[k]| && torn == lines[k][..|torn|])
  }

  lemma CutLater(lines: seq<string>, k: nat, cut: string, torn: string)
    requires lines != [] && k <= |lines[1..]| && CutAt(lines[1..], k, cut, torn)
    ensures CutAt(lines, 1 + k, lines[0] + "\n" + cut, torn)
  {
    assert lines[..1 + k] == [lines[0]] + lines[1..][..k];
    assert lines[..1 + k][1..] == lines[1..][..k];
    if cut == TextOf(lines[1..][..k]) + torn {
      assert TextOf(lines[..1 + k]) == lines[0] + "\n" + TextOf(lines[1..][..k]);
    } else {
      assert lines[..k][1..] == lines[1..][..k - 1];
      assert TextOf(lines[..k]) == lines[0] + "\n" + TextOf(lines[1..][..k - 1]);
    }
  }

  /** The first `n` characters are the whole lines and then less than one line. */
  lemma {:induction false} CutText(lines: seq<string>, n: nat) returns (torn: string)
    requires n <= |TextOf(lines)|
    ensures CutAt(lines, Whole(lines, n), TextOf(lines)[..n], torn)
  {
    if lines == [] {
      torn := [];
    } else if n < |lines[0]| {
      torn := lines[0][..n];
      assert TextOf(lines)[..n] == torn;
      assert TextOf(lines[..0]) + torn == torn;
    } else if n == |lines[0]| {
      torn := [];
      assert TextOf(lines)[..n] == lines[0];
      assert TextOf(lines[..0]) + lines[0] == lines[0];
    } else {
      var m := n - |lines[0]| - 1;
      torn := CutText(lines[1..], m);
      assert TextOf(lines)[..n] == lines[0] + "\n" + TextOf(lines[1..])[..m];
      hide CutAt;
      CutLater(lines, Whole(lines[1..], m), TextOf(lines[1..])[..m], torn);
    }
  }

  lemma PrintedPrefix(ps: seq<Punch>, k: nat)
    requires k <= |ps|
    ensures |Printed(ps)| == |ps| && Printed(ps)[..k] == Printed(ps[..k])
  {
    hide ToJson, Printed;
    assert ps[..k] + ps[k..] == ps;
    PrintedJoin(ps[..k], ps[k..]);
  }

  lemma TornLine(p: Punch, torn: string)
    requires |torn| < |ToJson(p)| && torn == ToJson(p)[..|torn|]
    ensures DrainText(torn) == Batch([])
  {
    hide ToJson;
    SpoolLineIsPlain(p);
    DrainOneLine(torn);
    TornSpoolLineIsSkipped(p, |torn|);
  }

  lemma DrainWithTail(ps: seq<Punch>, tail: string)
    ensures DrainText(Render(ps) + tail) == Join(Batch(ps), DrainText(tail))
  {
    PrintedArePlain(ps);
    KeptText(Printed(ps), tail);
    ReadJoin(Printed(ps), Kept(Lines(tail)));
    PrintedReadBack(ps);
  }

  lemma DrainLastLine(p: Punch)
    ensures DrainText(ToJson(p)) == Batch([p])
  {
    hide ToJson, Strip, Lines, Kept, FromJson;
    SpoolLineIsPlain(p);
    SpoolLineReadsBack(p);
    LineOutcome(ToJson(p));
    DrainOneLine(ToJson(p));
  }

  /** How many punches of the file are complete within its first `n` characters. */
  function Complete(ps: seq<Punch>, n: nat): (k: nat)
    ensures k <= |ps|
  {
    Whole(Printed(ps), n)
  }

  /** Cut inside a line, or right after a newline. */
  lemma CutInsideDrains(ps: seq<Punch>, k: nat, torn: string)
    requires k <= |ps|
    requires torn != [] ==> k < |ps| && |torn| < |ToJson(ps[k])| && torn == ToJson(ps[k])[..|torn|]
    ensures DrainText(TextOf(Printed(ps)[..k]) + torn) == Batch(ps[..k])
  {
    hide ToJson, DrainText, Printed, TextOf;
    PrintedPrefix(ps, k);
    DrainWithTail(ps[..k], torn);
    if torn != [] {
      TornLine(ps[k], torn);
    } else {
      DrainNothing();
    }
    assert ps[..k] + [] == ps[..k];
  }

  /** Cut between a line and its newline. */
  lemma CutAtNewlineDrains(ps: seq<Punch>, k: nat)
    requires 0 < k <= |ps|
    ensures DrainText(TextOf(Printed(ps)[..k - 1]) + ToJson(ps[k - 1])) == Batch(ps[..k])
  {
    hide ToJson, DrainText, Printed, TextOf;
    PrintedPrefix(ps, k - 1);
    DrainWithTail(ps[..k - 1], ToJson(ps[k - 1]));
    DrainLastLine(ps[k - 1]);
    assert ps[..k - 1] + [ps[k - 1]] == ps[..k];
  }

  lemma CutDrains(ps: seq<Punch>, k: nat, cut: string, torn: string)
    requires k <= |ps| && CutAt(Printed(ps), k, cut, torn)
    ensures DrainText(cut) == Batch(ps[..k])
  {
    hide ToJson, DrainText, Printed, TextOf;
    PrintedArePlain(ps);
    if cut == TextOf(Printed(ps)[..k]) + torn {
      CutInsideDrains(ps, k, torn);
    } else {
      CutAtNewlineDrains(ps, k);
    }
  }

  lemma DrainNothing()
    ensures DrainText([]) == Batch([])
  {
    NothingKept();
  }

  /** Cut anywhere, the file gives back exactly the punches whose lines are complete. */
  lemma TornFileKeepsCompleteLines(ps: seq<Punch>, n: nat)
    requires n <= |Render(ps)|
    ensures DrainText(Render(ps)[..n]) == Batch(ps[..Complete(ps, n)])
  {
    hide DrainText, CutAt, TextOf;
    var torn := CutText(Printed(ps), n);
    CutDrains(ps, Complete(ps, n), Render(ps)[..n], torn);
  }

  // ---------------------------------------------------------------------------
  // Adding to a file that was there before
  // ---------------------------------------------------------------------------

  /** Empty, or ended by a newline. */
  predicate Sealed(text: string) {
    text == [] || text[|text| - 1] == '\n'
  }

  lemma AddedIsSealed(text: string, ps: seq<Punch>)
    requires Sealed(text)
    ensures Sealed(text + Render(ps))
  {
    hide TextOf, Printed;
    EndedLinesClose(Printed(ps));
  }

  /** Whatever the file holds, what is added behind a newline is drained behind what it held. */
  lemma AddedIsDrained(text: string, ps: seq<Punch>)
    requires Sealed(text)
    ensures DrainText(text + Render(ps)) == Join(DrainText(text), Batch(ps))
  {
    hide Render, DrainText, Join;
    DrainRestores(ps);
    DrainNothing();
    JoinAssoc(Batch(ps), Batch(ps), Batch(ps));
    if text == [] {
      assert text + Render(ps) == Render(ps);
    } else {
      var line := text[..|text| - 1];
      assert text == line + ['\n'] + [];
      assert text + Render(ps) == line + ['\n'] + Render(ps);
      DrainIsByLine(line, '\n', Render(ps));
      DrainIsByLine(line, '\n', []);
      JoinAssoc(DrainText(line), Batch([]), Batch(ps));
    }
  }

  /** Two objects on one line are no JSON text. */
  lemma GluedLineIsBad(p: Punch, q: Punch)
    ensures FromJson(ToJson(p) + ToJson(q)) == Bad
    ensures Strip(ToJson(p) + ToJson(q)) == ToJson(p) + ToJson(q)
  {
    hide ParseValue, Loads, Members, FromMembers, DumpObject, Strip;
    var a, b := ToJson(p), ToJson(q);
    ObjectReads(Members(p));
    ObjectReads(Members(q));
    ObjectWithMoreFails(a, b);
    assert (a + b)[0] == '{' && (a + b)[|a + b| - 1] == '}';
    StripTrims(a + b);
  }

  /**
   * The newline matters: when the file was cut just before it, the next punch added is lost together
   * with the last one held, although neither line was damaged.
   */
  lemma LostNewlineLosesTwo(ps: seq<Punch>, p: Punch, q: Punch)
    ensures DrainText(Render(ps) + ToJson(p)) == Batch(ps + [p])
    ensures DrainText(Render(ps) + ToJson(p) + Render([q])) == Batch(ps)
  {
    hide ToJson, DrainText, Render, FromJson;
    DrainWithTail(ps, ToJson(p));
    DrainLastLine(p);
    var glued := ToJson(p) + ToJson(q);
    RenderOneMore([q], 0);
    assert [q][..0 + 1] == [q] && [q][..0] == [];
    RenderNothing();
    assert Render([q]) == ToJson(q) + "\n";
    assert Render(ps) + ToJson(p) + Render([q]) == Render(ps) + (glued + "\n");
    DrainWithTail(ps, glued + "\n");
    GluedLineIsBad(p, q);
    SpoolLineIsPlain(p);
    SpoolLineIsPlain(q);
    DrainOneLine(glued);
    DrainIsByLine(glued, '\n', []);
    assert glued + ['\n'] + [] == glued + "\n";
    DrainNothing();
    LineOutcome(glued);
    assert ps + [] == ps;
  }

  lemma LineOpensObject(q: Punch)
    ensures OpensObject(ToJson(q))
  {
    hide Members, OpensObject, DumpObject;
    SerialComesFirst(q);
    ObjectOpens(Members(q));
  }

  lemma SerialComesFirst(q: Punch)
    ensures Members(q) != [] && FlatMembers(Members(q)) && Members(q)[0].0 != [] && Members(q)[0].0[0] == 'd'
  {
  }

  lemma ObjectOpens(ms: seq<(string, Json)>)
    requires ms != [] && FlatMembers(ms) && ms[0].0 != [] && ms[0].0[0] == 'd'
    ensures OpensObject(DumpObject(ms))
  {
    hide Escape, DumpFlat, DumpRest;
    var key := ms[0].0;
    EscapeOpens(key);
    assert Quote(key)[0] == '"' && Quote(key)[1] == 'd';
    assert DumpMembers(ms)[0] == '"' && DumpMembers(ms)[1] == 'd';
  }

  lemma EscapeOpens(key: string)
    requires key != [] && key[0] == 'd'
    ensures Escape(key) != [] && Escape(key)[0] == 'd'
  {
    assert EscapeChar('d') == "d";
  }

  /** A fragment of one line and a whole other one are no JSON text, wherever the first was cut. */
  lemma FragmentThenLineIsBad(p: Punch, n: nat, q: Punch)
    requires 0 < n < |ToJson(p)|
    ensures FromJson(ToJson(p)[..n] + ToJson(q)) == Bad
    ensures Strip(ToJson(p)[..n] + ToJson(q)) == ToJson(p)[..n] + ToJson(q)
  {
    hide ParseValue, Loads, Members, FromMembers, DumpObject, Strip, OpensObject;
    var t := ToJson(p)[..n] + ToJson(q);
    ObjectReads(Members(p));
    ObjectReads(Members(q));
    LineOpensObject(q);
    FragmentThenObjectFails(Members(p), n, Members(q));
    assert t[0] == '{' && t[|t| - 1] == '}';
    StripTrims(t);
  }

  /** How many lines are within the first `n` characters of their text with their newline. */
  function Ended(lines: seq<string>, n: nat): (k: nat)
    ensures k <= |lines|
  {
    if lines == [] || n <= |lines[0]| then 0 else 1 + Ended(lines[1..], n - |lines[0]| - 1)
  }

  lemma {:induction false} EndedIsWhole(lines: seq<string>, n: nat)
    ensures Ended(lines, n) <= Whole(lines, n)
  {
    if lines != [] && n > |lines[0]| {
      EndedIsWhole(lines[1..], n - |lines[0]| - 1);
    }
  }

  /** The first `n` characters are the ended lines, and some of the next line. */
  lemma {:induction false} CutAfterEnded(lines: seq<string>, n: nat) returns (tail: string)
    requires n <= |TextOf(lines)|
    ensures var k := Ended(lines, n);
      && TextOf(lines)[..n] == TextOf(lines[..k]) + tail
      && (tail != [] ==> k < |lines| && tail <= lines[k])
  {
    if lines == [] || n <= |lines[0]| {
      tail := TextOf(lines)[..n];
      assert lines[..0] == [];
      assert lines != [] ==> tail == lines[0][..n];
    } else {
      var m := n - |lines[0]| - 1;
      tail := CutAfterEnded(lines[1..], m);
      var k := Ended(lines[1..], m);
      assert TextOf(lines)[..n] == lines[0] + "\n" + TextOf(lines[1..])[..m];
      assert lines[..1 + k][0] == lines[0] && lines[..1 + k][1..] == lines[1..][..k];
      assert TextOf(lines[..1 + k]) == lines[0] + "\n" + TextOf(lines[1..][..k]);
    }
  }

  /** A line glued to a fragment or to a whole line is skipped, and only it. */
  lemma GluedTail(p: Punch, n: nat, qs: seq<Punch>)
    requires 0 < n <= |ToJson(p)| && qs != []
    ensures DrainText(ToJson(p)[..n] + Render(qs)) == Batch(qs[1..])
  {
    hide ToJson, DrainText, Render, FromJson, Turn, Join;
    var q, rest := qs[0], qs[1..];
    var glued := ToJson(p)[..n] + ToJson(q);
    if n == |ToJson(p)| {
      assert ToJson(p)[..n] == ToJson(p);
      GluedLineIsBad(p, q);
    } else {
      FragmentThenLineIsBad(p, n, q);
    }
    SpoolLineIsPlain(p);
    SpoolLineIsPlain(q);
    DrainOneLine(glued);
    GluedTurn(glued);
    RenderFirst(qs);
    assert ToJson(p)[..n] + Render(qs) == glued + ['\n'] + Render(rest);
    DrainIsByLine(glued, '\n', Render(rest));
    DrainRestores(rest);
    JoinAssoc(Batch(rest), Batch([]), Batch([]));
  }

  lemma GluedTurn(line: string)
    requires FromJson(line) == Bad && Strip(line) == line
    ensures Turn(line) == Batch([])
  {
    hide FromJson, Strip;
  }

  lemma RenderFirst(qs: seq<Punch>)
    requires qs != []
    ensures Render(qs) == ToJson(qs[0]) + "\n" + Render(qs[1..])
  {
    hide ToJson;
  }

  /**
   * What is added to a file cut anywhere is drained behind its complete lines exactly when the file was
   * empty or cut right behind a newline. Otherwise the first punch added is lost, and with it the last
   * line held, whole or not.
   */
  lemma AddedAfterCutExactly(ps: seq<Punch>, n: nat, qs: seq<Punch>)
    requires n <= |Render(ps)| && qs != []
    ensures DrainText(Render(ps)[..n] + Render(qs)) == Batch(ps[..Complete(ps, n)] + qs)
       <==> Sealed(Render(ps)[..n])
    ensures !Sealed(Render(ps)[..n])
       ==> DrainText(Render(ps)[..n] + Render(qs)) == Batch(ps[..Ended(Printed(ps), n)] + qs[1..])
  {
    hide ToJson, DrainText, TextOf, Whole, Ended, Plain, Printed;
    var cut, k := Render(ps)[..n], Ended(Printed(ps), n);
    if Sealed(cut) {
      TornFileKeepsCompleteLines(ps, n);
      AddedIsDrained(cut, qs);
    } else {
      var tail := CutAfterEnded(Printed(ps), n);
      PrintedPrefix(ps, k);
      EndedLinesClose(Printed(ps[..k]));
      PrintedArePlain(ps);
      assert TextOf(Printed(ps)[..k]) + [] == TextOf(Printed(ps)[..k]);
      assert tail != [];
      var line := ToJson(ps[k]);
      assert Printed(ps)[k] == line && tail == line[..|tail|];
      GluedTail(ps[k], |tail|, qs);
      DrainWithTail(ps[..k], tail + Render(qs));
      assert cut + Render(qs) == Render(ps[..k]) + (tail + Render(qs));
      EndedIsWhole(Printed(ps), n);
      assert |ps[..k] + qs[1..]| < |ps[..Complete(ps, n)] + qs|;
    }
  }

  lemma {:induction false} EndedLinesClose(lines: seq<string>)
    ensures lines != [] ==> TextOf(lines) != [] && TextOf(lines)[|TextOf(lines)| - 1] == '\n'
    ensures lines == [] ==> TextOf(lines) == []
  {
    if lines != [] {
      EndedLinesClose(lines[1..]);
    }
  }

  lemma RenderNothing()
    ensures Render([]) == []
  {
  }

  // ---------------------------------------------------------------------------
  // The spool object
  // ---------------------------------------------------------------------------

  class PunchSpool {
    /** The text of the file, or None when there is no file. */
    var file: Option<string>

    constructor ()
      ensures file == None
    {
      file := None;
    }

    /** The number of lines that are not blank. */
    method Pending() returns (n: nat)
      ensures n == |Kept(Lines(FileText(file)))|
    {
      var lines := Lines(FileText(file));
      n := 0;
      for i := 0 to |lines|
        invariant n == |Kept(lines[..i])|
      {
        KeptJoin(lines[..i], [lines[i]]);
        assert lines[..i + 1] == lines[..i] + [lines[i]];
        if Strip(lines[i]) != [] {
          n := n + 1;
        }
      }
      assert lines[..|lines|] == lines;
    }

    method Add(punches: seq<Punch>)
      modifies this
      ensures file == if punches == [] then old(file) else Some(FileText(old(file)) + Render(punches))
    {
      hide ToJson;
      if punches == [] {
        return;
      }
      var text := FileText(file);
      for i := 0 to |punches|
        invariant text == FileText(old(file)) + Render(punches[..i])
      {
        text := text + (ToJson(punches[i]) + "\n");
        RenderOneMore(punches, i);
      }
      assert punches[..|punches|] == punches;
      file := Some(text);
    }

    /** Take everything out. The staged file is gone afterwards even when a line raises. */
    method Drain() returns (r: Drained)
      modifies this
      ensures file == None
      ensures r == DrainText(FileText(old(file)))
    {
      hide Strip, Lines, ReadLine;
      if file == None {
        NothingKept();
        return Batch([]);
      }
      var lines := Lines(file.value);
      file := None;
      var punches: seq<Punch> := [];
      for i := 0 to |lines|
        invariant file == None
        invariant ReadLines(Kept(lines[..i])) == Batch(punches)
      {
        DrainTurn(lines, i);
        var line := Strip(lines[i]);
        if line != [] {
          LineOutcome(line);
          match FromJson(line)
          case Good(p) => punches := punches + [p];
          case Bad =>
          case Raises => return Escaped;
        }
      }
      assert lines[..|lines|] == lines;
      r := Batch(punches);
    }

    /** Put a failed batch back, behind whatever arrived meanwhile. */
    method Restore(punches: seq<Punch>)
      modifies this
      ensures file == if punches == [] then old(file) else Some(FileText(old(file)) + Render(punches))
    {
      Add(punches);
    }
  }
}
