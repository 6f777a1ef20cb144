/** liveness.py: the contact throttle. */
module Liveness {

  /** What happens to the throttle: a reader calls in, or a write of its stamp fails and is forgotten. */
  datatype Event = Contact(serial: string, at: real, force: bool) | WriteFailed(serial: string)

  /** serial -> time of the last stamp admitted. */
  type Stamps = map<string, real>

  /** `_should_write`'s answer, with `interval` for `heartbeat_seconds`. */
  predicate Admits(m: Stamps, e: Event, interval: real)
    requires e.Contact?
  {
    e.force || e.serial !in m || e.at - m[e.serial] >= interval
  }

  function Next(m: Stamps, e: Event, interval: real): Stamps {
    match e
    case Contact(s, at, _) => if Admits(m, e, interval) then m[s := at] else m
    case WriteFailed(s) => m - {s}
  }

  function Run(m: Stamps, es: seq<Event>, interval: real): Stamps
    decreases |es|
  {
    if es == [] then m else Run(Next(m, es[0], interval), es[1..], interval)
  }

  /** Times of the stamps admitted for one reader; with `onlyUnforced`, the throttled ones. */
  function Admitted(m: Stamps, es: seq<Event>, serial: string, onlyUnforced: bool, interval: real): seq<real>
    decreases |es|
  {
    if es == [] then []
    else
      var e := es[0];
      var later := Admitted(Next(m, e, interval), es[1..], serial, onlyUnforced, interval);
      if e.Contact? && e.serial == serial && Admits(m, e, interval) && !(onlyUnforced && e.force)
      then [e.at] + later else later
  }

  function Failures(es: seq<Event>, serial: string): nat {
    if es == [] then 0 else (if es[0] == WriteFailed(serial) then 1 else 0) + Failures(es[1..], serial)
  }

  /** Contact times never decrease, and start no earlier than `start`. */
  predicate Monotone(es: seq<Event>, start: real) {
    es == [] ||
    if es[0].Contact? then start <= es[0].at && Monotone(es[1..], es[0].at) else Monotone(es[1..], start)
  }

  function Last(ts: seq<real>): real
    requires ts != []
  {
    ts[|ts| - 1]
  }

  // ---------------------------------------------------------------------------
  // How often a stamp is written
  // ---------------------------------------------------------------------------

  lemma TimesStep(k: int, interval: real)
    ensures (k as real + 1.0) * interval == k as real * interval + interval
    ensures (k + 1) as real == k as real + 1.0
  {
  }

  lemma TimesNegative(k: int, interval: real)
    requires k <= 0 && interval >= 0.0
    ensures k as real * interval <= 0.0
  {
  }

  lemma LastOfCons(t: real, ts: seq<real>)
    ensures Last([t] + ts) == if ts == [] then t else Last(ts)
  {
  }

  /** The budget so far: `k` throttled stamps after `since`, less failures and an uncovered start. */
  predicate Spaced(k: int, since: real, last: real, interval: real) {
    k as real * interval <= last - since
  }

  lemma SpacedLater(k: int, j: int, since: real, last: real, interval: real)
    requires j <= k && interval >= 0.0 && Spaced(k, since, last, interval)
    ensures Spaced(j, since, last, interval)
    decreases k - j
  {
    if j < k {
      TimesStep(k - 1, interval);
      SpacedLater(k - 1, j, since, last, interval);
    }
  }

  lemma {:induction false} LastIsLater(m: Stamps, es: seq<Event>, serial: string, unforced: bool, interval: real, start: real)
    requires Monotone(es, start) && Admitted(m, es, serial, unforced, interval) != []
    ensures Last(Admitted(m, es, serial, unforced, interval)) >= start
    decreases |es|
  {
    var tail := Admitted(Next(m, es[0], interval), es[1..], serial, unforced, interval);
    if tail != [] {
      LastIsLater(Next(m, es[0], interval), es[1..], serial, unforced, interval, if es[0].Contact? then es[0].at else start);
    }
    if es[0].Contact? {
      LastOfCons(es[0].at, tail);
    }
  }

  /**
   * Counting from a time `since` that the reader's last stamp, if any, is not before: every throttled
   * stamp costs an interval, except one per failed write and one if there is no stamp to measure from.
   */
  lemma {:induction false} RateFrom(m: Stamps, es: seq<Event>, serial: string, interval: real, since: real)
    requires interval >= 0.0 && Monotone(es, since)
    requires serial in m ==> m[serial] >= since
    requires Admitted(m, es, serial, true, interval) != []
    ensures var u := Admitted(m, es, serial, true, interval);
      Spaced(|u| - Failures(es, serial) - (if serial in m then 0 else 1), since, Last(u), interval)
    decreases |es|, 1
  {
    hide Spaced, Last;
    var e, n := es[0], Next(m, es[0], interval);
    var v := Admitted(n, es[1..], serial, true, interval);
    var f := Failures(es[1..], serial);
    if e == WriteFailed(serial) {
      RateFrom(n, es[1..], serial, interval, since);
      SpacedLater(|v| - f - 1, |v| - (f + 1) - (if serial in m then 0 else 1), since, Last(v), interval);
    } else if e.Contact? && e.serial == serial && Admits(m, e, interval) {
      if e.force {
        Relax(n, es[1..], serial, interval, e.at, since);
        SpacedLater(|v| - f, |v| - f - (if serial in m then 0 else 1), since, Last(v), interval);
      } else {
        RateAfterStamp(m, es, serial, interval, since);
      }
    } else {
      Relax(n, es[1..], serial, interval, if e.Contact? then e.at else since, since);
    }
  }

  lemma RateAfterStamp(m: Stamps, es: seq<Event>, serial: string, interval: real, since: real)
    requires interval >= 0.0 && es != [] && Monotone(es, since)
    requires serial in m ==> m[serial] >= since
    requires es[0].Contact? && es[0].serial == serial && !es[0].force && Admits(m, es[0], interval)
    ensures var u := Admitted(m, es, serial, true, interval);
      u != [] && Spaced(|u| - Failures(es, serial) - (if serial in m then 0 else 1), since, Last(u), interval)
    decreases |es|, 0
  {
    hide Spaced;
    var e, n := es[0], Next(m, es[0], interval);
    var v := Admitted(n, es[1..], serial, true, interval);
    var f := Failures(es[1..], serial);
    LastOfCons(e.at, v);
    if v != [] {
      RateFrom(n, es[1..], serial, interval, e.at);
    }
    StampCosts(|v| - f, since, e.at, Last([e.at] + v), interval, serial in m, v == []);
  }

  /** The tail of a run measured from the earlier time. */
  lemma Relax(m: Stamps, es: seq<Event>, serial: string, interval: real, start: real, since: real)
    requires interval >= 0.0 && Monotone(es, start) && since <= start
    requires serial in m ==> m[serial] >= since
    requires Admitted(m, es, serial, true, interval) != []
    ensures var u := Admitted(m, es, serial, true, interval);
      Spaced(|u| - Failures(es, serial) - (if serial in m then 0 else 1), since, Last(u), interval)
    decreases |es|, 2
  {
    MonotoneEarlier(es, start, since);
    RateFrom(m, es, serial, interval, since);
  }

  lemma {:induction false} MonotoneEarlier(es: seq<Event>, start: real, since: real)
    requires Monotone(es, start) && since <= start
    ensures Monotone(es, since)
  {
    if es != [] && !es[0].Contact? {
      MonotoneEarlier(es[1..], start, since);
    }
  }

  /** One throttled stamp at `at`, then `k` more in budget by `last`. */
  lemma StampCosts(k: int, since: real, at: real, last: real, interval: real, measured: bool, none: bool)
    requires interval >= 0.0 && since <= at
    requires measured ==> at - since >= interval
    requires if none then k <= 0 && last == at else Spaced(k, at, last, interval)
    ensures Spaced(k + 1 - (if measured then 0 else 1), since, last, interval)
  {
    TimesStep(k, interval);
    if none {
      TimesNegative(k, interval);
    }
  }

  /**
   * In any stretch of traffic, `k` throttled stamps with `f` failed writes among them are spread over
   * at least `k - 1 - f` intervals.
   */
  lemma {:induction false} StampRate(m: Stamps, es: seq<Event>, serial: string, interval: real, start: real)
    requires interval >= 0.0 && Monotone(es, start)
    requires Admitted(m, es, serial, true, interval) != []
    ensures var u := Admitted(m, es, serial, true, interval);
      Spaced(|u| - 1 - Failures(es, serial), u[0], Last(u), interval)
    decreases |es|
  {
    hide Spaced;
    var e, n := es[0], Next(m, es[0], interval);
    var u, v := Admitted(m, es, serial, true, interval), Admitted(n, es[1..], serial, true, interval);
    var f := Failures(es[1..], serial);
    if e.Contact? && e.serial == serial && Admits(m, e, interval) && !e.force {
      LastOfCons(e.at, v);
      if v == [] {
        SpacedLater(0, |u| - 1 - f, e.at, e.at, interval) by { SpacedZero(e.at, e.at, interval); }
      } else {
        RateFrom(n, es[1..], serial, interval, e.at);
      }
    } else {
      StampRate(n, es[1..], serial, interval, if e.Contact? then e.at else start);
      SpacedLater(|v| - 1 - f, |u| - 1 - Failures(es, serial), u[0], Last(u), interval);
    }
  }

  /** In numbers. */
  lemma StampRateInNumbers(m: Stamps, es: seq<Event>, serial: string, interval: real, start: real)
    requires interval >= 0.0 && Monotone(es, start)
    requires Admitted(m, es, serial, true, interval) != []
    ensures var u := Admitted(m, es, serial, true, interval);
      (|u| - 1 - Failures(es, serial)) as real * interval <= u[|u| - 1] - u[0]
  {
    hide Admitted, Failures;
    StampRate(m, es, serial, interval, start);
  }

  lemma {:induction false} FailuresAdd(a: seq<Event>, e: Event, b: seq<Event>, serial: string)
    ensures Failures(a + [e] + b, serial) == Failures(a, serial) + Failures(b, serial) + (if e == WriteFailed(serial) then 1 else 0)
  {
    if a == [] {
      assert a + [e] + b == [e] + b && ([e] + b)[1..] == b;
    } else {
      FailuresAdd(a[1..], e, b, serial);
      assert (a + [e] + b)[1..] == a[1..] + [e] + b;
    }
  }

  /** Seen from the end: one more contact adds its time exactly when the throttle admits it after that run, unforced if so asked. */
  lemma {:induction false} AdmittedAdds(m: Stamps, es: seq<Event>, e: Event, serial: string, onlyUnforced: bool, interval: real)
    ensures var before := Run(m, es, interval);
      Admitted(m, es + [e], serial, onlyUnforced, interval)
      == Admitted(m, es, serial, onlyUnforced, interval)
         + (if e.Contact? && e.serial == serial && !(onlyUnforced && e.force)
               && (e.force || serial !in before || e.at - before[serial] >= interval) then [e.at] else [])
    decreases |es|
  {
    if es == [] {
      assert es + [e] == [e] && [e][1..] == [];
    } else {
      AdmittedAdds(Next(m, es[0], interval), es[1..], e, serial, onlyUnforced, interval);
      assert (es + [e])[0] == es[0] && (es + [e])[1..] == es[1..] + [e];
    }
  }

  lemma SpacedZero(since: real, last: real, interval: real)
    requires since <= last
    ensures Spaced(0, since, last, interval)
  {
  }

  // ---------------------------------------------------------------------------
  // How old the last stamp can be
  // ---------------------------------------------------------------------------

  /** The reader's contacts follow each other, and `previous`, by at most `gap`. */
  predicate Regular(es: seq<Event>, serial: string, previous: real, gap: real) {
    es == [] ||
    if es[0].Contact? && es[0].serial == serial
    then es[0].at - previous <= gap && Regular(es[1..], serial, es[0].at, gap)
    else Regular(es[1..], serial, previous, gap)
  }

  /** Right after a contact the reader's last stamp is younger than one interval. */
  lemma ContactIsFresh(m: Stamps, e: Event, interval: real)
    requires e.Contact? && interval > 0.0
    ensures var n := Next(m, e, interval); e.serial in n && e.at - n[e.serial] < interval
  {
  }

  predicate CloseTogether(ts: seq<real>, limit: real) {
    forall i :: 0 <= i < |ts| - 1 ==> ts[i + 1] - ts[i] < limit
  }

  /** With no failed write, contacts at most `gap` apart give stamps less than `interval + gap` apart. */
  lemma {:induction false} StampsKeepUp(m: Stamps, es: seq<Event>, serial: string, interval: real, previous: real, gap: real)
    requires interval > 0.0 && Failures(es, serial) == 0 && Regular(es, serial, previous, gap)
    requires serial in m && previous - m[serial] < interval
    ensures CloseTogether([m[serial]] + Admitted(m, es, serial, false, interval), interval + gap)
    ensures var r := Run(m, es, interval); serial in r && r[serial] == Last([m[serial]] + Admitted(m, es, serial, false, interval))
    decreases |es|
  {
    if es != [] {
      var e, n := es[0], Next(m, es[0], interval);
      var v := Admitted(n, es[1..], serial, false, interval);
      if e.Contact? && e.serial == serial {
        ContactIsFresh(m, e, interval);
        StampsKeepUp(n, es[1..], serial, interval, e.at, gap);
        if Admits(m, e, interval) {
          assert e.at - m[serial] < interval + gap;
          ClosePrepend(m[serial], [e.at] + v, interval + gap);
          LastOfCons(m[serial], [e.at] + v);
        }
      } else {
        StampsKeepUp(n, es[1..], serial, interval, previous, gap);
      }
    }
  }

  /** In numbers: with no failed write, any two stamps in a row are less than the interval and the longest gap apart. */
  lemma StampsAreClose(m: Stamps, es: seq<Event>, serial: string, interval: real, previous: real, gap: real, i: nat)
    requires interval > 0.0 && Failures(es, serial) == 0 && Regular(es, serial, previous, gap)
    requires serial in m && previous - m[serial] < interval
    requires i < |Admitted(m, es, serial, false, interval)|
    ensures var u := Admitted(m, es, serial, false, interval);
      u[i] - (if i == 0 then m[serial] else u[i - 1]) < interval + gap
  {
    hide Admitted, Regular, Failures;
    var u := Admitted(m, es, serial, false, interval);
    StampsKeepUp(m, es, serial, interval, previous, gap);
    var all := [m[serial]] + u;
    assert all[i + 1] - all[i] < interval + gap;
    assert all[i + 1] == u[i] && all[i] == (if i == 0 then m[serial] else u[i - 1]);
  }

  lemma ClosePrepend(t: real, ts: seq<real>, limit: real)
    requires ts != [] && ts[0] - t < limit && CloseTogether(ts, limit)
    ensures CloseTogether([t] + ts, limit)
  {
  }

  // ---------------------------------------------------------------------------
  // The throttle object
  // ---------------------------------------------------------------------------

  /** How a background write ends; `Failed` is any exception but LmsUnavailableError. */
  datatype WriteOutcome = Updated | NotRegistered | LmsDown | Failed

  class Throttle {
    const interval: real
    var lastWrite: Stamps
    var warnedUnknown: set<string>

    constructor (interval: real)
      ensures this.interval == interval && lastWrite == map[] && warnedUnknown == {}
    {
      this.interval := interval;
      lastWrite, warnedUnknown := map[], {};
    }

    /** `mark_seen`: whether a write is submitted. */
    method MarkSeen(serial: string, syncing: bool, force: bool, now: real) returns (submitted: bool)
      modifies this`lastWrite
      ensures serial == [] || !syncing ==> !submitted && lastWrite == old(lastWrite)
      ensures serial != [] && syncing ==>
        var e := Contact(serial, now, force);
        lastWrite == Next(old(lastWrite), e, interval) && submitted == Admits(old(lastWrite), e, interval)
    {
      if serial == [] || !syncing {
        return false;
      }
      if !force && serial in lastWrite {
        if now - lastWrite[serial] < interval {
          return false;
        }
      }
      lastWrite := lastWrite[serial := now];
      return true;
    }

    /** `_write`: a refused write is forgotten, and an unregistered reader is complained of once. */
    method Write(serial: string, outcome: WriteOutcome) returns (complained: bool)
      modifies this
      ensures lastWrite == if outcome.LmsDown? then Next(old(lastWrite), WriteFailed(serial), interval) else old(lastWrite)
      ensures complained == (outcome.NotRegistered? && serial !in old(warnedUnknown))
      ensures warnedUnknown == old(warnedUnknown) + (if outcome.NotRegistered? then {serial} else {})
    {
      complained := false;
      match outcome
      case LmsDown => lastWrite := lastWrite - {serial};
      case Failed =>
      case Updated =>
      case NotRegistered =>
        if serial !in warnedUnknown {
          warnedUnknown := warnedUnknown + {serial};
          complained := true;
        }
    }
  }
}
