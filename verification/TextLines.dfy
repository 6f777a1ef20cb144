/** Splitting a text into stripped, non-blank lines, as the spool and the wire parser both do. */
module TextLines {
  import opened Text

  predicate IsBreak(c: char) {
    c == '\n' || c == '\r'
  }

  /**
   * The pieces between line breaks. `\r\n` counts as two breaks here; the empty piece between them is
   * dropped with the other blank lines.
   */
  function Lines(text: string): (ls: seq<string>)
    ensures |ls| > 0
  {
    if text == [] then [[]]
    else
      var tail := Lines(text[1..]);
      if IsBreak(text[0]) then [[]] + tail else [[text[0]] + tail[0]] + tail[1..]
  }

  /** The stripped lines that are not blank. */
  function Kept(lines: seq<string>): seq<string> {
    if lines == [] then []
    else (if Strip(lines[0]) == [] then [] else [Strip(lines[0])]) + Kept(lines[1..])
  }

  lemma LinesStep(c: char, rest: string)
    ensures Lines([c] + rest)
         == if IsBreak(c) then [[]] + Lines(rest) else [[c] + Lines(rest)[0]] + Lines(rest)[1..]
  {
    hide IsBreak;
    assert ([c] + rest)[1..] == rest;
  }

  lemma NoLines()
    ensures Lines([]) == [[]]
  {
  }

  lemma {:induction false} LinesJoin(a: string, c: char, b: string)
    requires IsBreak(c)
    ensures Lines(a + [c] + b) == Lines(a) + Lines(b)
  {
    hide IsBreak, Lines;
    if a == [] {
      assert a + [c] + b == [c] + b;
      LinesStep(c, b);
      NoLines();
    } else {
      LinesJoin(a[1..], c, b);
      assert a + [c] + b == [a[0]] + (a[1..] + [c] + b);
      LinesStep(a[0], a[1..] + [c] + b);
      assert a == [a[0]] + a[1..];
      LinesStep(a[0], a[1..]);
    }
  }

  lemma {:induction false} OneLine(a: string)
    requires forall c :: c in a ==> !IsBreak(c)
    ensures Lines(a) == [a]
  {
    if a != [] {
      OneLine(a[1..]);
      assert [a[0]] + a[1..] == a;
      assert a[0] in a;
    }
  }

  lemma KeptStep(line: string, rest: seq<string>)
    ensures Kept([line] + rest) == (if Strip(line) == [] then [] else [Strip(line)]) + Kept(rest)
  {
    hide Strip;
    assert ([line] + rest)[1..] == rest;
  }

  lemma KeptNone()
    ensures Kept([]) == []
  {
  }

  lemma {:induction false} KeptJoin(a: seq<string>, b: seq<string>)
    ensures Kept(a + b) == Kept(a) + Kept(b)
  {
    hide Strip, Kept;
    if a == [] {
      assert a + b == b;
      KeptNone();
    } else {
      KeptJoin(a[1..], b);
      assert a + b == [a[0]] + (a[1..] + b);
      KeptStep(a[0], a[1..] + b);
      assert a == [a[0]] + a[1..];
      KeptStep(a[0], a[1..]);
    }
  }

  lemma KeptOne(line: string)
    ensures Kept([line]) == if Strip(line) == [] then [] else [Strip(line)]
  {
    hide Strip;
    assert [line][1..] == [];
    assert Kept([line][1..]) == [];
  }

  lemma NothingKept()
    ensures Kept(Lines([])) == []
  {
    assert Lines([]) == [[]];
    assert Strip([]) == [];
  }

  /** Both line feed and carriage return end a line. */
  lemma NewlinesSplit(a: string, b: string)
    ensures Lines(a + "\n" + b) == Lines(a) + Lines(b) && Lines(a + "\r" + b) == Lines(a) + Lines(b)
  {
    LinesJoin(a, '\n', b);
    LinesJoin(a, '\r', b);
  }
}
