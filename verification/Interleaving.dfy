/**
 * Any number of threads over one spool and one table: request handlers running `ingest` and the
 * supervisor running `_flush`. A step is one whole spool method or one whole `save_punches`
 * transaction, in any order; a step a thread is not ready for leaves everything as it is.
 */
module Interleaving {
  import opened Punches
  import opened LmsTable

  /** Where a thread is. `own` is the pushed batch it must place; it is empty for the supervisor. */
  datatype Phase =
    | Idle
    | Arrived(own: seq<Punch>)
    | SavingBatch(batch: seq<Punch>, own: seq<Punch>)
    | Restoring(batch: seq<Punch>, own: seq<Punch>)
    | SavingOwn(own: seq<Punch>)
    | Holding(own: seq<Punch>)

  datatype Action = Accept(punches: seq<Punch>) | Drain | Save(outcome: DbOutcome) | Restore | Hold

  datatype Step = Step(thread: nat, action: Action)

  datatype State = State(
    rows: seq<Punch>,
    spool: seq<Punch>,
    threads: map<nat, Phase>,
    accepted: seq<Punch>)

  function PhaseOf(s: State, t: nat): Phase {
    if t in s.threads then s.threads[t] else Idle
  }

  function Move(s: State, t: nat, p: Phase): State {
    s.(threads := s.threads[t := p])
  }

  /** `drain` by a thread with `own` still to place. */
  function Drained(s: State, t: nat, own: seq<Punch>): State {
    if s.spool != [] then Move(s, t, SavingBatch(s.spool, own)).(spool := [])
    else if own != [] then Move(s, t, SavingOwn(own))
    else s
  }

  function AfterBatch(batch: seq<Punch>, own: seq<Punch>, o: DbOutcome): Phase {
    match o
    case Commits => if own == [] then Idle else SavingOwn(own)
    case Breaks => if own == [] then Restoring(batch, own) else Holding(own)
    case _ => Restoring(batch, own)
  }

  function After(s: State, e: Step): State {
    var t := e.thread;
    match (PhaseOf(s, t), e.action)
    case (Idle, Accept(ps)) => if ps == [] then s else Move(s, t, Arrived(ps)).(accepted := s.accepted + ps)
    case (Idle, Drain) => Drained(s, t, [])
    case (Arrived(own), Drain) => Drained(s, t, own)
    case (SavingBatch(batch, own), Save(o)) =>
      Move(s, t, AfterBatch(batch, own, o)).(rows := RowsAfter(s.rows, batch, o))
    case (Restoring(batch, own), Restore) =>
      Move(s, t, if own == [] then Idle else Holding(own)).(spool := s.spool + batch)
    case (SavingOwn(own), Save(o)) =>
      Move(s, t, if o.Commits? then Idle else Holding(own)).(rows := RowsAfter(s.rows, own, o))
    case (Holding(own), Hold) => Move(s, t, Idle).(spool := s.spool + own)
    case _ => s
  }

  function Run(s: State, es: seq<Step>): State
    decreases |es|
  {
    if es == [] then s else Run(After(s, es[0]), es[1..])
  }

  // ---------------------------------------------------------------------------
  // Where the keys are
  // ---------------------------------------------------------------------------

  function Carried(p: Phase): seq<Punch> {
    match p
    case Idle => []
    case SavingBatch(batch, own) => batch + own
    case Restoring(batch, own) => batch + own
    case Arrived(own) => own
    case SavingOwn(own) => own
    case Holding(own) => own
  }

  /** Keys in the hands of every thread but `t`. */
  function OtherKeys(m: map<nat, Phase>, t: nat): set<Key> {
    set u, k | u in m && u != t && k in Keys(Carried(m[u])) :: k
  }

  function HeldKeys(m: map<nat, Phase>): set<Key> {
    set u, k | u in m && k in Keys(Carried(m[u])) :: k
  }

  /** Every key the system still knows of. */
  function AllKeys(s: State): set<Key> {
    Keys(s.rows) + Keys(s.spool) + HeldKeys(s.threads)
  }

  lemma HeldSplit(s: State, t: nat)
    ensures HeldKeys(s.threads) == OtherKeys(s.threads, t) + Keys(Carried(PhaseOf(s, t)))
  {
    hide Keys;
    NoKeys();
  }

  lemma OthersUnmoved(m: map<nat, Phase>, t: nat, p: Phase)
    ensures OtherKeys(m[t := p], t) == OtherKeys(m, t)
  {
    hide Keys;
    forall k
      ensures k in OtherKeys(m[t := p], t) <==> k in OtherKeys(m, t)
    {
      if k in OtherKeys(m[t := p], t) {
        var u :| u in m[t := p] && u != t && k in Keys(Carried(m[t := p][u]));
        assert u in m && m[u] == m[t := p][u];
      }
      if k in OtherKeys(m, t) {
        var u :| u in m && u != t && k in Keys(Carried(m[u]));
        assert u in m[t := p] && m[t := p][u] == m[u];
      }
    }
  }

  /** The step that loses punches: a handler's save of the drained batch meets an unforeseen exception. */
  predicate DropsBatch(s: State, e: Step) {
    var p := PhaseOf(s, e.thread);
    p.SavingBatch? && p.own != [] && e.action == Save(Breaks)
  }

  function NewKeys(s: State, e: Step): set<Key> {
    if PhaseOf(s, e.thread).Idle? && e.action.Accept? then Keys(e.action.punches) else {}
  }

  lemma SavedKeys(rows: seq<Punch>, ps: seq<Punch>, o: DbOutcome)
    ensures Keys(RowsAfter(rows, ps, o)) == Keys(rows) + (if TakesEffect(o) then Keys(ps) else {})
  {
    hide Keys;
    InsertAllKeys(rows, ps);
  }

  /** What a thread that takes a step holds, stores and puts back, before and after. */
  lemma StepKeeps(s: State, e: Step)
    requires !DropsBatch(s, e)
    ensures AllKeys(After(s, e)) == AllKeys(s) + NewKeys(s, e)
  {
    hide Keys, HeldKeys, OtherKeys, RowsAfter;
    var t, r := e.thread, After(s, e);
    NoKeys();
    HeldSplit(s, t);
    if r.threads == s.threads {
      assert r == s;
    } else {
      HeldSplit(r, t);
      OthersUnmoved(s.threads, t, PhaseOf(r, t));
      match PhaseOf(s, t) {
        case SavingBatch(batch, own) =>
          KeysJoin(batch, own);
          SavedKeys(s.rows, batch, e.action.outcome);
        case Restoring(batch, own) =>
          KeysJoin(batch, own);
          KeysJoin(s.spool, batch);
        case SavingOwn(own) => SavedKeys(s.rows, own, e.action.outcome);
        case Holding(own) => KeysJoin(s.spool, own);
        case Arrived(own) => KeysJoin(s.spool, own);
        case Idle => assert s.spool + [] == s.spool;
      }
    }
  }

  /** The dropping step is harmless exactly when every key of its batch is also somewhere else. */
  lemma DropLosesExactly(s: State, e: Step)
    requires DropsBatch(s, e)
    ensures var p := PhaseOf(s, e.thread);
      AllKeys(After(s, e)) == AllKeys(s)
      <==> Keys(p.batch) <= Keys(s.rows) + Keys(s.spool) + OtherKeys(s.threads, e.thread) + Keys(p.own)
  {
    hide Keys, HeldKeys, OtherKeys;
    var p, r := PhaseOf(s, e.thread), After(s, e);
    HeldSplit(s, e.thread);
    HeldSplit(r, e.thread);
    OthersUnmoved(s.threads, e.thread, PhaseOf(r, e.thread));
    KeysJoin(p.batch, p.own);
  }

  // ---------------------------------------------------------------------------
  // Whole runs
  // ---------------------------------------------------------------------------

  predicate NeverDrops(s: State, es: seq<Step>)
    decreases |es|
  {
    es == [] || (!DropsBatch(s, es[0]) && NeverDrops(After(s, es[0]), es[1..]))
  }

  /** The keys known are those there at the start and those accepted since. */
  predicate Conserved(s: State, start: set<Key>) {
    AllKeys(s) == start + Keys(s.accepted)
  }

  lemma StepConserves(s: State, e: Step, start: set<Key>)
    requires !DropsBatch(s, e) && Conserved(s, start)
    ensures Conserved(After(s, e), start)
  {
    hide Keys, HeldKeys, RowsAfter, AllKeys;
    StepKeeps(s, e);
    NoKeys();
    if PhaseOf(s, e.thread).Idle? && e.action.Accept? {
      KeysJoin(s.accepted, e.action.punches);
    }
  }

  /** In every interleaving no accepted punch is lost and none is invented. */
  lemma {:induction false} EveryInterleavingConserves(s: State, es: seq<Step>, start: set<Key>)
    requires NeverDrops(s, es) && Conserved(s, start)
    ensures Conserved(Run(s, es), start)
    decreases |es|
  {
    hide Conserved, After, DropsBatch;
    if es != [] {
      StepConserves(s, es[0], start);
      EveryInterleavingConserves(After(s, es[0]), es[1..], start);
    }
  }

  /** Every row, spooled punch and carried punch is one of `known`. */
  predicate Within(s: State, known: set<Punch>) {
    && (forall p :: p in s.rows ==> p in known)
    && (forall p :: p in s.spool ==> p in known)
    && (forall t, p :: t in s.threads && p in Carried(s.threads[t]) ==> p in known)
    && Unique(s.rows)
  }

  predicate ThreadWithin(p: Phase, known: set<Punch>) {
    forall q :: q in Carried(p) ==> q in known
  }

  lemma MovedWithin(s: State, t: nat, p: Phase, known: set<Punch>)
    requires Within(s, known) && ThreadWithin(p, known)
    ensures Within(Move(s, t, p), known)
  {
  }

  lemma RowsWithin(rows: seq<Punch>, ps: seq<Punch>, o: DbOutcome, known: set<Punch>)
    requires Unique(rows) && (forall p :: p in rows ==> p in known) && (forall p :: p in ps ==> p in known)
    ensures Unique(RowsAfter(rows, ps, o)) && (forall p :: p in RowsAfter(rows, ps, o) ==> p in known)
  {
    InsertAllGrows(rows, ps);
  }

  lemma StepWithin(s: State, e: Step, known: set<Punch>)
    requires Within(s, known)
    requires e.action.Accept? ==> forall p :: p in e.action.punches ==> p in known
    ensures Within(After(s, e), known)
  {
    hide RowsAfter, Unique, Within;
    var t, r := e.thread, After(s, e);
    assert forall p :: p in Carried(PhaseOf(s, t)) ==> p in known by { WithinParts(s, t, known); }
    assert Unique(s.rows) && (forall p :: p in s.rows ==> p in known) && (forall p :: p in s.spool ==> p in known) by {
      WithinParts(s, t, known);
    }
    if r.threads == s.threads {
      assert r == s;
    } else {
      match PhaseOf(s, t) {
        case SavingBatch(batch, own) =>
          assert forall p :: p in batch || p in own ==> p in batch + own;
          RowsWithin(s.rows, batch, e.action.outcome, known);
        case SavingOwn(own) => RowsWithin(s.rows, own, e.action.outcome, known);
        case Restoring(batch, own) => assert forall p :: p in batch || p in own ==> p in batch + own;
        case _ =>
      }
      assert ThreadWithin(PhaseOf(r, t), known);
      MovedWithin(s, t, PhaseOf(r, t), known);
      PartsWithin(Move(s, t, PhaseOf(r, t)), r, known);
    }
  }

  lemma WithinParts(s: State, t: nat, known: set<Punch>)
    requires Within(s, known)
    ensures forall p :: p in Carried(PhaseOf(s, t)) ==> p in known
    ensures Unique(s.rows) && (forall p :: p in s.rows ==> p in known) && (forall p :: p in s.spool ==> p in known)
  {
  }

  lemma PartsWithin(s: State, r: State, known: set<Punch>)
    requires Within(s, known) && r.threads == s.threads && Unique(r.rows)
    requires (forall p :: p in r.rows ==> p in known) && (forall p :: p in r.spool ==> p in known)
    ensures Within(r, known)
  {
  }

  /** In every interleaving, dropped batches or not, rows stay unique and are punches that were known or pushed. */
  lemma {:induction false} EveryInterleavingStaysWithin(s: State, es: seq<Step>, known: set<Punch>)
    requires Within(s, known)
    requires forall i :: 0 <= i < |es| && es[i].action.Accept? ==> forall p :: p in es[i].action.punches ==> p in known
    ensures Within(Run(s, es), known)
    decreases |es|
  {
    hide Within, After;
    if es != [] {
      StepWithin(s, es[0], known);
      EveryInterleavingStaysWithin(After(s, es[0]), es[1..], known);
    }
  }

  /** Every thread is idle and nothing is on disk. */
  predicate AtRest(s: State) {
    s.spool == [] && forall t :: t in s.threads ==> s.threads[t].Idle?
  }

  lemma RestHoldsNothing(s: State)
    requires AtRest(s)
    ensures AllKeys(s) == Keys(s.rows)
  {
    NoKeys();
    assert HeldKeys(s.threads) == {};
  }

  /** At rest the table has exactly one row for every key it started with or accepted. */
  lemma RestIsExact(s: State, es: seq<Step>, start: set<Key>, known: set<Punch>)
    requires NeverDrops(s, es) && Conserved(s, start) && Within(s, known)
    requires forall i :: 0 <= i < |es| && es[i].action.Accept? ==> forall p :: p in es[i].action.punches ==> p in known
    requires AtRest(Run(s, es))
    ensures var r := Run(s, es);
      Unique(r.rows) && Keys(r.rows) == start + Keys(r.accepted) && |r.rows| == |start + Keys(r.accepted)|
  {
    var r := Run(s, es);
    EveryInterleavingConserves(s, es, start);
    EveryInterleavingStaysWithin(s, es, known);
    RestHoldsNothing(r);
    UniqueCount(r.rows);
  }

  /** By fields: at rest a punch has a row of its reader, PIN and time exactly when its key was known or it was accepted. */
  lemma RestHasEveryRow(s: State, es: seq<Step>, known: set<Punch>)
    requires NeverDrops(s, es) && s.rows == [] && s.spool == [] && s.threads == map[] && s.accepted == []
    requires forall i :: 0 <= i < |es| && es[i].action.Accept? ==> forall p :: p in es[i].action.punches ==> p in known
    requires AtRest(Run(s, es))
    ensures var r := Run(s, es);
      Distinct(r.rows) && forall p: Punch :: HasRow(r.rows, p) <==> HasRow(r.accepted, p)
  {
    hide Run, HasRow, Distinct, Keys, NeverDrops, AtRest;
    var r := Run(s, es);
    NoKeys();
    assert HeldKeys(s.threads) == {};
    RestIsExact(s, es, {}, known);
    DistinctIsUnique(r.rows);
    forall p: Punch
      ensures HasRow(r.rows, p) <==> HasRow(r.accepted, p)
    {
      HasRowIff(r.rows, p);
      HasRowIff(r.accepted, p);
    }
  }

  lemma {:induction false} UniqueCount(rows: seq<Punch>)
    requires Unique(rows)
    ensures |Keys(rows)| == |rows|
  {
    if rows != [] {
      var init, last := rows[..|rows| - 1], rows[|rows| - 1];
      assert rows == init + [last];
      KeysJoin(init, [last]);
      KeysOne(last);
      UniqueCount(init);
    }
  }

  lemma RunOne(s: State, e: Step)
    ensures Run(s, [e]) == After(s, e)
  {
    hide After;
    assert [e][1..] == [];
  }

  lemma RunStep(s: State, e: Step, es: seq<Step>)
    ensures Run(s, [e] + es) == Run(After(s, e), es)
  {
    hide After;
    assert ([e] + es)[1..] == es;
  }

  lemma RunFour(s: State, e1: Step, e2: Step, e3: Step, e4: Step)
    ensures Run(s, [e1, e2, e3, e4]) == After(After(After(After(s, e1), e2), e3), e4)
  {
    hide After, Run;
    RunStep(s, e1, [e2, e3, e4]);
    RunStep(After(s, e1), e2, [e3, e4]);
    RunStep(After(After(s, e1), e2), e3, [e4]);
    RunOne(After(After(After(s, e1), e2), e3), e4);
    assert [e1] + [e2, e3, e4] == [e1, e2, e3, e4];
    assert [e2] + [e3, e4] == [e2, e3, e4];
    assert [e3] + [e4] == [e3, e4];
  }

  /** The spool is empty and in the supervisor's hands while a handler stores a newer punch. */
  lemma LaterStored(s: State, older: Punch, newer: Punch)
    requires KeyOf(older) == KeyOf(newer)
    requires s == State([], [], map[0 := Idle, 1 := SavingBatch([older], [])], [older])
    ensures Run(s, [Step(0, Accept([newer])), Step(0, Drain), Step(0, Save(Commits)), Step(1, Save(Commits))])
         == State([newer], [], map[0 := Idle, 1 := Idle], [older, newer])
  {
    hide Run;
    RunFour(s, Step(0, Accept([newer])), Step(0, Drain), Step(0, Save(Commits)), Step(1, Save(Commits)));
    var s1 := After(s, Step(0, Accept([newer])));
    var s2 := After(s1, Step(0, Drain));
    var s3 := After(s2, Step(0, Save(Commits)));
    assert s2 == State([], [], map[0 := SavingOwn([newer]), 1 := SavingBatch([older], [])], [older, newer]);
    OneOfTwo(newer, older);
    assert s3 == State([newer], [], map[0 := Idle, 1 := SavingBatch([older], [])], [older, newer]);
    assert After(s3, Step(1, Save(Commits))).threads == map[0 := Idle, 1 := Idle];
  }

  /** A refused push ends up on disk. */
  lemma OlderHeld(older: Punch)
    ensures Run(State([], [], map[], []),
                [Step(0, Accept([older])), Step(0, Drain), Step(0, Save(Refuses(0))), Step(0, Hold)])
         == State([], [older], map[0 := Idle], [older])
  {
    hide Run;
    var s := State([], [], map[], []);
    RunFour(s, Step(0, Accept([older])), Step(0, Drain), Step(0, Save(Refuses(0))), Step(0, Hold));
    var s1 := After(s, Step(0, Accept([older])));
    assert s1 == State([], [], map[0 := Arrived([older])], [older]);
    var s3 := After(After(s1, Step(0, Drain)), Step(0, Save(Refuses(0))));
    assert s3 == State([], [], map[0 := Holding([older])], [older]);
  }

  lemma {:induction false} RunJoin(s: State, a: seq<Step>, b: seq<Step>)
    ensures Run(s, a + b) == Run(Run(s, a), b)
    decreases |a|
  {
    hide After;
    if a == [] {
      assert a + b == b;
    } else {
      RunJoin(After(s, a[0]), a[1..], b);
      assert (a + b)[1..] == a[1..] + b;
    }
  }

  lemma OneOfTwo(a: Punch, b: Punch)
    requires KeyOf(a) == KeyOf(b)
    ensures InsertAll([], [a]) == [a]
    ensures InsertAll([a], [b]) == [a]
    ensures InsertAll([], [a, b]) == [a]
  {
    KeysOne(a);
    KeysOne(b);
    NoKeys();
    InsertAllJoin([], [a], [b]);
    InsertAllSettled([a], [b]);
    assert InsertAll([], [a]) == [a];
    assert [a] + [b] == [a, b];
  }

  /**
   * Under interleaving the first come is not always the one kept: the supervisor can be holding the
   * older of two punches with one key while a handler stores the newer.
   */
  lemma FirstComeCanLose(older: Punch, newer: Punch)
    requires KeyOf(older) == KeyOf(newer) && older != newer
    ensures var es := [Step(0, Accept([older])), Step(0, Drain), Step(0, Save(Refuses(0))), Step(0, Hold)]
        + [Step(1, Drain)]
        + [Step(0, Accept([newer])), Step(0, Drain), Step(0, Save(Commits)), Step(1, Save(Commits))];
      var r := Run(State([], [], map[], []), es);
      r.accepted == [older, newer] && AtRest(r) && r.rows == [newer] && InsertAll([], r.accepted) == [older]
  {
    hide Run;
    var held := [Step(0, Accept([older])), Step(0, Drain), Step(0, Save(Refuses(0))), Step(0, Hold)];
    var later := [Step(0, Accept([newer])), Step(0, Drain), Step(0, Save(Commits)), Step(1, Save(Commits))];
    var s := State([], [], map[], []);
    OlderHeld(older);
    RunJoin(s, held, [Step(1, Drain)]);
    RunOne(Run(s, held), Step(1, Drain));
    RunJoin(s, held + [Step(1, Drain)], later);
    LaterStored(Run(s, held + [Step(1, Drain)]), older, newer);
    OneOfTwo(older, newer);
  }
}
