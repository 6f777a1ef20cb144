/** push_ingest.py: times whose fields are not all padded with a zero are read just the same. */
module LooseTimes {
  import opened Text
  import opened Times

  /** A field below ten without its zero, where `pad` does not ask for it. */
  function LooseField(d: Directive, t: DateTime, pad: Directive -> bool): string
    requires Valid(t)
  {
    if d.Year? || pad(d) || Get(t, d) >= 10 then PrintField(d, t) else [DigitChar(Get(t, d))]
  }

  function Loose(f: Layout, t: DateTime, pad: Directive -> bool): string
    requires Valid(t)
  {
    if f == [] then []
    else
      (match f[0]
       case Lit(c) => [c]
       case Blank => " "
       case Field(d) => LooseField(d, t, pad))
      + Loose(f[1..], t, pad)
  }

  /** No two fields stand side by side, and no literal is a digit. */
  predicate Spaced(f: Layout) {
    && Fielded(f)
    && (forall i :: 0 <= i < |f| - 1 && f[i].Field? ==> !f[i + 1].Field?)
    && (forall i :: 0 <= i < |f| && f[i].Lit? ==> !IsDigit(f[i].c))
  }

  lemma SpacedTail(f: Layout)
    requires Spaced(f) && |f| > 1
    ensures Spaced(f[1..])
  {
    FieldedTail(f);
    var g := f[1..];
    assert forall i :: 0 <= i < |g| ==> g[i] == f[i + 1];
  }

  lemma {:induction false} LooseOpens(f: Layout, t: Moment, pad: Directive -> bool)
    requires Spaced(f)
    ensures Loose(f, t, pad) != []
    ensures f[0].Field? ==> IsDigit(Loose(f, t, pad)[0])
    ensures !f[0].Field? ==> !IsDigit(Loose(f, t, pad)[0])
    ensures IsDigit(Loose(f, t, pad)[|Loose(f, t, pad)| - 1])
  {
    if f[0].Field? {
      PrintedField(f[0].d, t, []);
    }
    if |f| > 1 {
      SpacedTail(f);
      LooseOpens(f[1..], t, pad);
    }
  }

  /** A field is read as its value, whether padded or not, if no digit follows. */
  lemma LooseFieldMatches(f: Layout, d: Directive, t: Moment, pad: Directive -> bool, rest: string, base: DateTime)
    requires f != [] && f[0] == Field(d) && (rest == [] || !IsDigit(rest[0]))
    requires MatchFrom(f[1..], rest, Put(base, d, Get(t, d))).Some?
    ensures MatchFrom(f, LooseField(d, t, pad) + rest, base) == MatchFrom(f[1..], rest, Put(base, d, Get(t, d)))
  {
    var text := LooseField(d, t, pad);
    var s := text + rest;
    if d.Year? || pad(d) || Get(t, d) >= 10 {
      PrintedField(d, t, rest);
    } else {
      assert !Digits(s, 2) by {
        if rest != [] {
          assert s[1] == rest[0];
        }
      }
      assert Wide(d, s) == None;
      assert Narrow(d, s) == Some(Piece(Get(t, d), 1));
      assert s[1..] == rest;
    }
  }

  lemma LoosePlainMatches(f: Layout, t: Moment, pad: Directive -> bool, base: DateTime)
    requires Spaced(f) && |f| > 1 && !f[0].Field?
    ensures MatchFrom(f, Loose(f, t, pad), base) == MatchFrom(f[1..], Loose(f[1..], t, pad), base)
  {
    var rest := Loose(f[1..], t, pad);
    SpacedTail(f);
    LooseOpens(f[1..], t, pad);
    assert Loose(f, t, pad)[1..] == rest;
    if f[0].Blank? {
      assert f[1..][0].Field?;
      assert LStrip(Loose(f, t, pad)) == LStrip(rest) == rest;
    }
  }

  lemma {:induction false} LooseMatches(f: Layout, t: Moment, pad: Directive -> bool, base: DateTime)
    requires f != [] ==> Spaced(f)
    ensures MatchFrom(f, Loose(f, t, pad), base) == Some(Hit(Overlay(f, t, base), []))
    decreases |f|
  {
    if f != [] {
      hide Spaced, Overlay, LooseField;
      var rest := Loose(f[1..], t, pad);
      OverlayStep(f, t, base);
      if |f| > 1 {
        SpacedTail(f);
        LooseOpens(f[1..], t, pad);
      }
      if f[0].Field? {
        NextIsNoField(f);
        LooseMatches(f[1..], t, pad, Put(base, f[0].d, Get(t, f[0].d)));
        LooseFieldMatches(f, f[0].d, t, pad, rest, base);
      } else {
        EndsInField(f);
        LooseMatches(f[1..], t, pad, base);
        LoosePlainMatches(f, t, pad, base);
      }
    }
  }

  lemma NextIsNoField(f: Layout)
    requires Spaced(f) && f[0].Field?
    ensures |f| > 1 ==> !f[1..][0].Field?
  {
  }

  lemma EndsInField(f: Layout)
    requires Spaced(f) && !f[0].Field?
    ensures |f| > 1
  {
  }

  lemma FormatsAreSpaced(f: Format)
    requires !f.Compact?
    ensures Spaced(Items(f)) && Items(f)[0].Field?
  {
    FormatsFielded(f);
    match f
    case Dashed =>
    case Slashed =>
    case ToTheMinute =>
    case DayFirst =>
  }

  /** In each of the four formats with separators any choice of fields may go without their leading zero. */
  lemma LooseTimeIsRead(f: Format, t: Moment, pad: Directive -> bool)
    requires !f.Compact?
    ensures Strptime(f, Loose(Items(f), t, pad)) == Some(Precise(f, t))
    ensures ParseTime(Loose(Items(f), t, pad)) == Some(Precise(f, t))
  {
    hide MatchFrom, Loose, Items, Overlay, Spaced;
    var s := Loose(Items(f), t, pad);
    FormatsCarry(f, t);
    FormatsAreSpaced(f);
    LooseMatches(Items(f), t, pad, EPOCH);
    LooseOpens(Items(f), t, pad);
    StripTrims(s);
    ParsedByItsFormat(s, f);
  }
}
