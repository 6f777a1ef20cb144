/** push_ingest.py and the flush of supervisor.py: pushed punches into the table, or onto disk. */
module PushIngest {
  import opened Text
  import opened Times
  import opened Punches
  import opened Spool
  import opened LmsTable

  // ---------------------------------------------------------------------------
  // One parsed iClock row into a punch
  // ---------------------------------------------------------------------------

  /** A row of `parse_attlog`; a missing key is None. */
  datatype Record = Record(
    sn: Option<string>,
    userId: Option<string>,
    userName: Option<string>,
    timestamp: Option<string>,
    status: Option<string>,
    verifyType: Option<string>,
    workCode: Option<string>,
    raw: Option<string>)

  /** `value or default` for a text. */
  function Or(v: Option<string>, default: string): string {
    if v.Some? && v.value != [] then v.value else default
  }

  /** `_as_int`: a missing value reads as the text "None", which is no integer. */
  function AsInt(v: Option<string>): Option<int> {
    if v.Some? then PyInt(v.value) else None
  }

  function ToPunch(r: Record): Option<Punch> {
    var pin := Strip(Or(r.userId, ""));
    var moment := ParseTime(Or(r.timestamp, ""));
    var serial := Strip(Or(r.sn, ""));
    if pin == [] || moment == None then None
    else Some(Punch(
      if serial == [] then "UNKNOWN" else serial,
      pin,
      moment.value,
      match AsInt(r.status) { case None => 0 case Some(i) => i },
      AsInt(r.verifyType),
      Some(Or(r.workCode, "0")),
      if r.userName.Some? && StartsWith(r.userName.value, "User ") then None else r.userName,
      None,
      if r.raw == Some("") then None else r.raw))
  }

  function Usable(records: seq<Record>): seq<Punch> {
    if records == [] then []
    else
      var p := ToPunch(records[0]);
      (if p.Some? then [p.value] else []) + Usable(records[1..])
  }

  /** A row is unusable exactly when its PIN is missing or blank, or its timestamp is no time. */
  lemma UsableExactly(r: Record)
    ensures ToPunch(r).None? <==>
      || r.userId.None? || Strip(r.userId.value) == []
      || r.timestamp.None? || ParseTime(r.timestamp.value) == None
  {
    hide FirstFormat;
    StripTrims([]);
    NothingParses();
    if r.userId == Some([]) {
      assert Strip(r.userId.value) == [];
    }
  }

  lemma NothingParses()
    ensures Strip([]) == [] && ParseTime([]) == None
  {
    StripTrims([]);
  }

  /** Field by field: what a usable row becomes, missing and empty fields included. */
  lemma PunchByFields(r: Record)
    requires ToPunch(r).Some?
    ensures var p := ToPunch(r).value;
      && p.deviceSerial == (if r.sn.None? || Strip(r.sn.value) == [] then "UNKNOWN" else Strip(r.sn.value))
      && p.deviceUserId == Strip(r.userId.value) && Some(p.deviceTime) == ParseTime(r.timestamp.value)
      && p.punchState == (if r.status.Some? && PyInt(r.status.value).Some? then PyInt(r.status.value).value else 0)
      && p.verifyMode == (if r.verifyType.Some? then PyInt(r.verifyType.value) else None)
      && p.workCode == Some(if r.workCode.Some? && r.workCode.value != [] then r.workCode.value else "0")
      && p.userName == (if r.userName.Some? && "User " <= r.userName.value then None else r.userName)
      && p.deviceId == None && p.rawPayload == (if r.raw == Some([]) then None else r.raw)
  {
    hide FirstFormat, PyInt;
    NothingParses();
  }

  // ---------------------------------------------------------------------------
  // The protocol as steps over the table and the spool
  // ---------------------------------------------------------------------------

  /** Rows in the table, and punches on disk in the order they will be drained. */
  datatype State = State(rows: seq<Punch>, held: seq<Punch>)

  function StoreOwn(s: State, ps: seq<Punch>, o: DbOutcome): State {
    State(RowsAfter(s.rows, ps, o), if o.Commits? then s.held else s.held + ps)
  }

  /** `ingest` of the usable punches `ps`: `first` ends the save of the drained batch, `second` that of `ps`. */
  function Ingested(s: State, ps: seq<Punch>, first: DbOutcome, second: DbOutcome): State {
    if ps == [] then s
    else if s.held == [] then StoreOwn(s, ps, second)
    else
      var rows := RowsAfter(s.rows, s.held, first);
      match first
      case Commits => StoreOwn(State(rows, []), ps, second)
      case Breaks => State(rows, ps)
      case _ => State(rows, s.held + ps)
  }

  /** `_flush` */
  function Flushed(s: State, o: DbOutcome): State {
    State(RowsAfter(s.rows, s.held, o), if o.Commits? then [] else s.held)
  }

  /** The table once everything now on disk has been offered to it. */
  function Eventual(s: State): seq<Punch> {
    InsertAll(s.rows, s.held)
  }

  /** The one case in which a drained batch is not put back: an exception other than LmsUnavailableError. */
  predicate DropsBatch(s: State, ps: seq<Punch>, first: DbOutcome) {
    ps != [] && s.held != [] && first.Breaks?
  }

  lemma StoreOwnKeeps(s: State, ps: seq<Punch>, o: DbOutcome)
    requires s.held == []
    ensures Eventual(StoreOwn(s, ps, o)) == InsertAll(Eventual(s), ps)
  {
    hide Keys;
    assert ps + [] == ps && [] + ps == ps;
    InsertAllAgain(s.rows, ps, []);
  }

  /** Every outcome but the dropped batch leaves the eventual table at "what it was, then these". */
  lemma IngestKeeps(s: State, ps: seq<Punch>, first: DbOutcome, second: DbOutcome)
    requires !DropsBatch(s, ps, first)
    ensures Eventual(Ingested(s, ps, first, second)) == InsertAll(Eventual(s), ps)
  {
    hide Keys;
    if ps != [] && s.held != [] {
      match first
      case Commits => StoreOwnKeeps(State(InsertAll(s.rows, s.held), []), ps, second);
      case Refuses(_) => InsertAllJoin(s.rows, s.held, ps);
      case CommitsThenErrors =>
        InsertAllAgain(s.rows, s.held, ps);
        InsertAllJoin(s.rows, s.held, ps);
    } else if ps != [] {
      StoreOwnKeeps(s, ps, second);
    }
  }

  lemma FlushKeeps(s: State, o: DbOutcome)
    ensures Eventual(Flushed(s, o)) == Eventual(s)
  {
    hide Keys;
    assert s.held + [] == s.held;
    InsertAllAgain(s.rows, s.held, []);
  }

  /**
   * Exactly when one `ingest` loses nobody's punch: unless the drained batch's save breaks while
   * that batch holds a key that is neither stored nor in the new punches.
   */
  lemma IngestLosesExactly(s: State, ps: seq<Punch>, first: DbOutcome, second: DbOutcome)
    ensures Keys(Eventual(Ingested(s, ps, first, second))) == Keys(Eventual(s)) + Keys(ps)
       <==> !(DropsBatch(s, ps, first) && !(Keys(s.held) <= Keys(s.rows) + Keys(ps)))
  {
    InsertAllKeys(s.rows, s.held);
    InsertAllKeys(Eventual(s), ps);
    if DropsBatch(s, ps, first) {
      InsertAllKeys(s.rows, ps);
    } else {
      IngestKeeps(s, ps, first, second);
    }
  }

  // ---------------------------------------------------------------------------
  // Whole runs
  // ---------------------------------------------------------------------------

  datatype Event =
    | Push(punches: seq<Punch>, first: DbOutcome, second: DbOutcome)
    | Flush(outcome: DbOutcome)

  function After(s: State, e: Event): State {
    match e
    case Push(ps, first, second) => Ingested(s, ps, first, second)
    case Flush(o) => Flushed(s, o)
  }

  function Run(s: State, es: seq<Event>): State
    decreases |es|
  {
    if es == [] then s else Run(After(s, es[0]), es[1..])
  }

  /** Everything pushed, in order of arrival. */
  function Accepted(es: seq<Event>): seq<Punch> {
    if es == [] then [] else (if es[0].Push? then es[0].punches else []) + Accepted(es[1..])
  }

  predicate NeverDrops(s: State, es: seq<Event>)
    decreases |es|
  {
    es == [] ||
    (!(es[0].Push? && DropsBatch(s, es[0].punches, es[0].first)) && NeverDrops(After(s, es[0]), es[1..]))
  }

  /** Whatever the database did in between, offering the spool now gives every accepted punch, first come first kept. */
  lemma {:induction false} EventualTable(s: State, es: seq<Event>)
    requires NeverDrops(s, es)
    ensures Eventual(Run(s, es)) == InsertAll(Eventual(s), Accepted(es))
    decreases |es|
  {
    hide Keys;
    if es != [] {
      var e, t := es[0], After(s, es[0]);
      var ps := if e.Push? then e.punches else [];
      match e {
        case Push(_, first, second) => IngestKeeps(s, e.punches, first, second);
        case Flush(o) => FlushKeeps(s, o);
      }
      assert Eventual(t) == InsertAll(Eventual(s), ps);
      EventualTable(t, es[1..]);
      InsertAllJoin(Eventual(s), ps, Accepted(es[1..]));
    }
  }

  /** Once the spool is empty the table itself has exactly one row per key ever accepted. */
  lemma DrainedRunIsExact(s: State, es: seq<Event>)
    requires NeverDrops(s, es) && Unique(s.rows) && Run(s, es).held == []
    ensures Run(s, es).rows == InsertAll(Eventual(s), Accepted(es))
    ensures Unique(Run(s, es).rows)
    ensures Keys(Run(s, es).rows) == Keys(s.rows) + Keys(s.held) + Keys(Accepted(es))
  {
    EventualTable(s, es);
    InsertAllGrows(s.rows, s.held);
    InsertAllGrows(Eventual(s), Accepted(es));
    InsertAllKeys(s.rows, s.held);
    InsertAllKeys(Eventual(s), Accepted(es));
  }

  /**
   * By fields: after any run that drops no batch, the eventual table has a row of the reader, PIN and
   * time of every punch that was stored, held or accepted, no row of another, and no two of one.
   */
  lemma EveryAcceptedPunchHasItsRow(s: State, es: seq<Event>)
    requires NeverDrops(s, es) && Distinct(s.rows)
    ensures forall p: Punch ::
      (HasRow(Eventual(Run(s, es)), p) <==> HasRow(s.rows, p) || HasRow(s.held, p) || HasRow(Accepted(es), p))
    ensures forall p :: p in Accepted(es) ==> HasRow(Eventual(Run(s, es)), p)
    ensures Distinct(Eventual(Run(s, es)))
  {
    hide Run, HasRow, SamePunch, InsertAll, Distinct;
    EventualTable(s, es);
    DistinctIsUnique(s.rows);
    EveryPunchHasItsOneRow(s.rows, s.held);
    RowsByField(s.rows, s.held);
    DistinctIsUnique(Eventual(s));
    EveryPunchHasItsOneRow(Eventual(s), Accepted(es));
    RowsByField(Eventual(s), Accepted(es));
  }

  /** One flush that commits finishes the job. */
  lemma CommittedFlushDrains(s: State, es: seq<Event>)
    ensures Run(s, es + [Flush(Commits)]).held == []
    decreases |es|
  {
    if es == [] {
      assert Run(After(s, Flush(Commits)), []) == Flushed(s, Commits);
      assert (es + [Flush(Commits)])[1..] == [];
    } else {
      assert (es + [Flush(Commits)])[1..] == es[1..] + [Flush(Commits)];
      CommittedFlushDrains(After(s, es[0]), es[1..]);
    }
  }

  /** The dropped batch is real: one held punch, one push, one unforeseen exception. */
  lemma DroppedBatchIsLost(waiting: Punch, pushed: Punch)
    requires KeyOf(waiting) != KeyOf(pushed)
    ensures var s := State([], [waiting]);
      KeyOf(waiting) !in Keys(Eventual(Run(s, [Push([pushed], Breaks, Commits), Flush(Commits)])))
  {
    var s := State([], [waiting]);
    var es := [Push([pushed], Breaks, Commits), Flush(Commits)];
    assert es[1..] == [Flush(Commits)] && es[1..][1..] == [];
    var t := After(s, es[0]);
    assert t == State([], [pushed]);
    var u := After(t, Flush(Commits));
    InsertAllKeys([], [pushed]);
    InsertAllKeys(u.rows, []);
    KeysOne(pushed);
    assert Run(s, es) == Run(t, [Flush(Commits)]) == Run(u, []) == u;
  }

  // ---------------------------------------------------------------------------
  // The service
  // ---------------------------------------------------------------------------

  datatype FlushResult = Nothing | Sent(count: nat, stored: nat) | Outage | Crash

  class Bridge {
    const spool: PunchSpool
    const db: LmsDatabase
    /** The punches that a drain of the spool file gives. */
    ghost var held: seq<Punch>

    /** The file may be torn and may hold corrupt lines, from an earlier run. */
    ghost predicate Valid()
      reads this, spool
    {
      DrainText(FileText(spool.file)) == Batch(held)
    }

    ghost function View(): State
      reads this, db
    {
      State(db.rows, held)
    }

    /** The spool may hold punches from an earlier run. */
    constructor (spool: PunchSpool, db: LmsDatabase, ghost held: seq<Punch>)
      requires DrainText(FileText(spool.file)) == Batch(held)
      ensures this.spool == spool && this.db == db
      ensures Valid() && this.held == held
    {
      this.spool := spool;
      this.db := db;
      this.held := held;
    }

    method DrainSpool() returns (waiting: seq<Punch>)
      requires Valid()
      modifies this, spool
      ensures Valid() && held == [] && spool.file == None && waiting == old(held)
    {
      var r := spool.Drain();
      DrainNothing();
      waiting := r.punches;
      held := [];
    }

    /** Behind a torn last line the first punch is lost, as `AddedAfterCutExactly` says. */
    method Hold(punches: seq<Punch>)
      modifies this, spool
      ensures FileText(spool.file) == FileText(old(spool.file)) + Render(punches)
      ensures old(Valid()) && Sealed(FileText(old(spool.file)))
        ==> Valid() && held == old(held) + punches && Sealed(FileText(spool.file))
      ensures DrainText(FileText(spool.file)).Batch? ==> Valid()
    {
      hide Render, DrainText;
      ghost var text := FileText(spool.file);
      RenderNothing();
      spool.Add(punches);
      assert text + [] == text;
      if Sealed(text) {
        AddedIsDrained(text, punches);
        AddedIsSealed(text, punches);
      }
      ghost var now := DrainText(FileText(spool.file));
      if now.Batch? {
        held := now.punches;
      }
    }

    /** `(usable rows, rows newly stored)`; never raises. */
    method Ingest(records: seq<Record>, syncing: bool, first: DbOutcome, second: DbOutcome)
      returns (usable: nat, stored: nat)
      requires Valid()
      modifies this, spool, db
      ensures Valid()
      ensures !syncing ==> View() == old(View()) && usable == stored == 0
      ensures syncing ==> View() == Ingested(old(View()), Usable(records), first, second)
      ensures syncing ==> usable == |Usable(records)|
      ensures syncing && usable > 0 && second.Commits? && (old(held) == [] || first.Commits?)
        ==> stored == |Keys(Usable(records)) - Keys(old(db.rows)) - Keys(old(held))|
      ensures !(usable > 0 && second.Commits? && (old(held) == [] || first.Commits?)) ==> stored == 0
    {
      hide Render, DrainText, ToPunch, InsertAll, Keys;
      if !syncing {
        return 0, 0;
      }
      var punches := Usable(records);
      if punches == [] {
        return 0, 0;
      }
      var waiting := DrainSpool();
      if waiting != [] {
        var saved := db.SavePunches(waiting, first);
        if !saved.Stored? {
          if saved == Unavailable {
            Hold(waiting);
          }
          Hold(punches);
          assert [] + punches == punches && [] + waiting == waiting;
          return |punches|, 0;
        }
        InsertAllKeys(old(db.rows), waiting);
      } else {
        NoKeys();
      }
      var saved := db.SavePunches(punches, second);
      if !saved.Stored? {
        Hold(punches);
        return |punches|, 0;
      }
      assert Keys(punches) - (Keys(old(db.rows)) + Keys(waiting))
          == Keys(punches) - Keys(old(db.rows)) - Keys(waiting);
      return |punches|, saved.inserted;
    }

    /** `SyncSupervisor._flush`; `Outage` and `Crash` are what it re-raises. */
    method FlushHeld(outcome: DbOutcome) returns (r: FlushResult)
      requires Valid()
      modifies this, spool, db
      ensures Valid() && View() == Flushed(old(View()), outcome) && FileText(spool.file) == Render(held)
      ensures r == if old(held) == [] then Nothing
                   else if outcome.Commits? then Sent(|old(held)|, |Keys(old(held)) - Keys(old(db.rows))|)
                   else if outcome.Breaks? then Crash else Outage
    {
      hide Render, DrainText, Keys;
      RenderNothing();
      var waiting := DrainSpool();
      if waiting == [] {
        return Nothing;
      }
      var saved := db.SavePunches(waiting, outcome);
      if saved.Stored? {
        return Sent(|waiting|, saved.inserted);
      }
      Hold(waiting);
      assert [] + waiting == waiting;
      return if saved == Unavailable then Outage else Crash;
    }
  }
}
