/** Under interleaving: exactly when the table keeps the punch that came first, and that every state can come to rest. */
module FirstCome {
  import opened Text
  import opened Punches
  import opened LmsTable
  import opened Interleaving

  // ---------------------------------------------------------------------------
  // The first of several offers
  // ---------------------------------------------------------------------------

  /** The first punch with a key. */
  function FirstOf(ps: seq<Punch>, key: Key): Option<Punch> {
    if ps == [] then None
    else if KeyOf(ps[0]) == key then Some(ps[0])
    else FirstOf(ps[1..], key)
  }

  lemma {:induction false} FirstOfJoin(a: seq<Punch>, b: seq<Punch>, key: Key)
    ensures FirstOf(a + b, key) == if FirstOf(a, key).Some? then FirstOf(a, key) else FirstOf(b, key)
  {
    if a == [] {
      assert a + b == b;
    } else {
      FirstOfJoin(a[1..], b, key);
      assert (a + b)[1..] == a[1..] + b;
    }
  }

  lemma {:induction false} FirstOfKeys(ps: seq<Punch>, key: Key)
    ensures FirstOf(ps, key).Some? <==> key in Keys(ps)
    ensures FirstOf(ps, key).Some? ==> FirstOf(ps, key).value in ps && KeyOf(FirstOf(ps, key).value) == key
  {
    if ps != [] {
      FirstOfKeys(ps[1..], key);
      KeysStep(ps);
      assert ps == [ps[0]] + ps[1..];
    } else {
      NoKeys();
    }
  }

  /** What a batch adds: of every new key, its first offer. */
  lemma {:induction false} InsertedAreFirst(rows: seq<Punch>, ps: seq<Punch>, p: Punch)
    ensures p in InsertAll(rows, ps) <==> p in rows || (KeyOf(p) !in Keys(rows) && FirstOf(ps, KeyOf(p)) == Some(p))
    decreases |ps|
  {
    hide Keys;
    if ps != [] {
      InsertedAreFirst(Insert(rows, ps[0]), ps[1..], p);
      InsertKeys(rows, ps[0]);
    }
  }

  // ---------------------------------------------------------------------------
  // One step
  // ---------------------------------------------------------------------------

  /** The batch that a step inserts into the table. */
  function Saved(s: State, e: Step): seq<Punch> {
    if !e.action.Save? || !TakesEffect(e.action.outcome) then []
    else match PhaseOf(s, e.thread)
      case SavingBatch(batch, _) => batch
      case SavingOwn(own) => own
      case Idle => []
      case Arrived(_) => []
      case Restoring(_, _) => []
      case Holding(_) => []
  }

  /** Every row is the first accepted punch of its key. */
  predicate RowsAreFirst(s: State) {
    Unique(s.rows) && forall p :: p in s.rows ==> FirstOf(s.accepted, KeyOf(p)) == Some(p)
  }

  /** The step stores, for a key not stored yet, a punch that was not the first accepted. */
  predicate Overtakes(s: State, e: Step) {
    exists p :: p in Saved(s, e) && KeyOf(p) !in Keys(s.rows)
      && FirstOf(Saved(s, e), KeyOf(p)) == Some(p) && FirstOf(s.accepted, KeyOf(p)) != Some(p)
  }

  lemma StepRows(s: State, e: Step)
    ensures After(s, e).rows == InsertAll(s.rows, Saved(s, e))
    ensures After(s, e).accepted == s.accepted || (e.action.Accept? && After(s, e).accepted == s.accepted + e.action.punches)
    ensures Saved(s, e) != [] ==> After(s, e).accepted == s.accepted
  {
    hide Keys;
    assert InsertAll(s.rows, []) == s.rows;
  }

  lemma FirstStays(s: State, e: Step, key: Key)
    requires FirstOf(s.accepted, key).Some?
    ensures FirstOf(After(s, e).accepted, key) == FirstOf(s.accepted, key)
  {
    hide After;
    StepRows(s, e);
    if e.action.Accept? {
      FirstOfJoin(s.accepted, e.action.punches, key);
    }
  }

  /** First come is kept by a step exactly when the step does not overtake. */
  lemma StepKeepsFirst(s: State, e: Step)
    requires RowsAreFirst(s)
    ensures RowsAreFirst(After(s, e)) <==> !Overtakes(s, e)
  {
    hide After, Saved, Keys, Unique, InsertAll;
    var r, batch := After(s, e), Saved(s, e);
    StepRows(s, e);
    InsertAllGrows(s.rows, batch);
    if Overtakes(s, e) {
      var p :| p in batch && KeyOf(p) !in Keys(s.rows) && FirstOf(batch, KeyOf(p)) == Some(p)
        && FirstOf(s.accepted, KeyOf(p)) != Some(p);
      InsertedAreFirst(s.rows, batch, p);
    } else {
      forall p | p in r.rows
        ensures FirstOf(r.accepted, KeyOf(p)) == Some(p)
      {
        InsertedAreFirst(s.rows, batch, p);
        FirstOfKeys(batch, KeyOf(p));
        if p in s.rows {
          FirstStays(s, e, KeyOf(p));
        }
      }
    }
  }

  // ---------------------------------------------------------------------------
  // Whole runs
  // ---------------------------------------------------------------------------

  function AcceptedSet(s: State): set<Punch> {
    set p | p in s.accepted
  }

  /** Everything stored, spooled or carried was accepted. */
  predicate Grounded(s: State) {
    Within(s, AcceptedSet(s))
  }

  lemma WithinMore(s: State, known: set<Punch>, more: set<Punch>)
    requires Within(s, known) && known <= more
    ensures Within(s, more)
  {
    hide Unique;
  }

  lemma StepKeepsGrounded(s: State, e: Step)
    requires Grounded(s)
    ensures Grounded(After(s, e))
  {
    hide Within, After;
    StepRows(s, e);
    var r := After(s, e);
    if e.action.Accept? && r.accepted == s.accepted {
      UnreadyAccept(s, e);
    } else {
      assert AcceptedSet(s) <= AcceptedSet(r);
      WithinMore(s, AcceptedSet(s), AcceptedSet(r));
      StepWithin(s, e, AcceptedSet(r));
    }
  }

  lemma UnreadyAccept(s: State, e: Step)
    requires e.action.Accept? && After(s, e).accepted == s.accepted
    ensures After(s, e) == s
  {
  }

  predicate NeverOvertakes(s: State, es: seq<Step>)
    decreases |es|
  {
    es == [] || (!Overtakes(s, es[0]) && NeverOvertakes(After(s, es[0]), es[1..]))
  }

  lemma RowIsAccepted(s: State, p: Punch)
    requires Grounded(s) && p in s.rows
    ensures p in s.accepted
  {
    hide Unique;
    assert p in AcceptedSet(s);
  }

  /** A punch that was overtaken stays so. */
  lemma {:induction false} OvertakenForGood(s: State, es: seq<Step>)
    requires Grounded(s) && !RowsAreFirst(s)
    ensures !RowsAreFirst(Run(s, es))
    decreases |es|
  {
    hide After, Keys, InsertAll;
    if es != [] {
      var r := After(s, es[0]);
      StepRows(s, es[0]);
      assert Unique(s.rows) by { GroundedIsUnique(s); }
      InsertAllGrows(s.rows, Saved(s, es[0]));
      var p :| p in s.rows && FirstOf(s.accepted, KeyOf(p)) != Some(p);
      RowIsAccepted(s, p);
      AcceptedHasFirst(s.accepted, p);
      FirstStays(s, es[0], KeyOf(p));
      assert p in r.rows;
      StepKeepsGrounded(s, es[0]);
      OvertakenForGood(r, es[1..]);
    }
  }

  lemma GroundedIsUnique(s: State)
    requires Grounded(s)
    ensures Unique(s.rows)
  {
  }

  lemma AcceptedHasFirst(ps: seq<Punch>, p: Punch)
    requires p in ps
    ensures FirstOf(ps, KeyOf(p)).Some?
  {
    FirstOfKeys(ps, KeyOf(p));
  }

  /** In every run, each row is the first accepted punch of its key exactly when no step overtook. */
  lemma {:induction false} RunKeepsFirst(s: State, es: seq<Step>)
    requires Grounded(s) && RowsAreFirst(s)
    ensures RowsAreFirst(Run(s, es)) <==> NeverOvertakes(s, es)
    decreases |es|
  {
    hide After, Grounded, RowsAreFirst, Overtakes;
    if es != [] {
      StepKeepsFirst(s, es[0]);
      StepKeepsGrounded(s, es[0]);
      if Overtakes(s, es[0]) {
        OvertakenForGood(After(s, es[0]), es[1..]);
      } else {
        RunKeepsFirst(After(s, es[0]), es[1..]);
      }
    }
  }

  lemma {:induction false} RunKeepsGrounded(s: State, es: seq<Step>)
    requires Grounded(s)
    ensures Grounded(Run(s, es))
    decreases |es|
  {
    hide After, Grounded;
    if es != [] {
      StepKeepsGrounded(s, es[0]);
      RunKeepsGrounded(After(s, es[0]), es[1..]);
    }
  }

  /**
   * When a run from nothing that drops no batch has come to rest, the table has the rows of the
   * first-wins table of everything accepted exactly when no step overtook.
   */
  lemma FirstComeIsKeptExactly(es: seq<Step>)
    requires var s := State([], [], map[], []); NeverDrops(s, es) && AtRest(Run(s, es))
    ensures var s := State([], [], map[], []);
      var r := Run(s, es);
      (forall p :: p in r.rows <==> p in InsertAll([], r.accepted)) <==> NeverOvertakes(s, es)
  {
    hide Run, Keys, NeverDrops, NeverOvertakes, AtRest, InsertAll;
    var s := State([], [], map[], []);
    var r := Run(s, es);
    assert Grounded(s) && RowsAreFirst(s) && Conserved(s, {}) by { NothingYet(s); }
    RunKeepsFirst(s, es);
    RunKeepsGrounded(s, es);
    GroundedIsUnique(r);
    EveryInterleavingConserves(s, es, {});
    RestHoldsNothing(r);
    NoKeys();
    forall p
      ensures p in InsertAll([], r.accepted) <==> FirstOf(r.accepted, KeyOf(p)) == Some(p)
    {
      InsertedAreFirst([], r.accepted, p);
    }
    if RowsAreFirst(r) {
      forall p | p in InsertAll([], r.accepted)
        ensures p in r.rows
      {
        FirstOfKeys(r.accepted, KeyOf(p));
        FirstOfKeys(r.rows, KeyOf(p));
        var q := FirstOf(r.rows, KeyOf(p)).value;
        assert FirstOf(r.accepted, KeyOf(q)) == Some(q);
      }
    }
  }

  lemma NothingYet(s: State)
    requires s == State([], [], map[], [])
    ensures Grounded(s) && RowsAreFirst(s) && Conserved(s, {})
  {
    NoKeys();
    assert HeldKeys(s.threads) == {};
  }

  // ---------------------------------------------------------------------------
  // Where the older punch is
  // ---------------------------------------------------------------------------

  /** Every accepted punch is on disk, in some thread's hands, or has its key stored. */
  ghost predicate Kept(s: State) {
    forall p :: p in s.accepted ==>
      KeyOf(p) in Keys(s.rows) || p in s.spool || exists t :: t in s.threads && p in Carried(s.threads[t])
  }

  ghost predicate HeldBy(s: State, p: Punch) {
    exists t :: t in s.threads && p in Carried(s.threads[t])
  }

  /** What the thread of a step holds or puts back is held, put back or stored afterwards. */
  lemma OwnHandsKeep(s: State, e: Step, p: Punch)
    requires !DropsBatch(s, e) && p in Carried(PhaseOf(s, e.thread))
    ensures var r := After(s, e);
      KeyOf(p) in Keys(r.rows) || p in r.spool || p in Carried(PhaseOf(r, e.thread))
  {
    hide RowsAfter;
    if e.action.Save? {
      var o := e.action.outcome;
      match PhaseOf(s, e.thread) {
        case SavingBatch(batch, own) =>
          RowKeys(s.rows, batch, o, p);
        case SavingOwn(own) =>
          RowKeys(s.rows, own, o, p);
        case Idle =>
        case Arrived(_) =>
        case Restoring(_, _) =>
        case Holding(_) =>
      }
    }
  }

  lemma RowKeys(rows: seq<Punch>, ps: seq<Punch>, o: DbOutcome, p: Punch)
    ensures TakesEffect(o) && p in ps ==> KeyOf(p) in Keys(RowsAfter(rows, ps, o))
    ensures Keys(rows) <= Keys(RowsAfter(rows, ps, o))
  {
    InsertAllKeys(rows, ps);
  }

  /** What the other threads and the disk hold is not lost by a step either. */
  lemma OthersKeep(s: State, e: Step)
    ensures Keys(s.rows) <= Keys(After(s, e).rows)
    ensures forall t :: t in s.threads && t != e.thread ==> t in After(s, e).threads && After(s, e).threads[t] == s.threads[t]
    ensures forall p :: p in s.spool ==> p in After(s, e).spool || p in Carried(PhaseOf(After(s, e), e.thread))
  {
    hide Keys;
    StepRows(s, e);
    InsertAllKeys(s.rows, Saved(s, e));
    hide InsertAll, RowsAfter;
  }

  lemma NewlyAccepted(s: State, e: Step, p: Punch)
    requires p in After(s, e).accepted && p !in s.accepted
    ensures p in Carried(PhaseOf(After(s, e), e.thread))
  {
    hide RowsAfter;
  }

  lemma PhaseHolds(s: State, t: nat, p: Punch)
    requires p in Carried(PhaseOf(s, t))
    ensures HeldBy(s, p)
  {
  }

  lemma StepKeepsPunches(s: State, e: Step)
    requires Kept(s) && !DropsBatch(s, e)
    ensures Kept(After(s, e))
  {
    hide After, Keys, Carried;
    var r := After(s, e);
    OthersKeep(s, e);
    forall p | p in r.accepted
      ensures KeyOf(p) in Keys(r.rows) || p in r.spool || HeldBy(r, p)
    {
      if p !in s.accepted {
        NewlyAccepted(s, e, p);
        PhaseHolds(r, e.thread, p);
      } else if KeyOf(p) !in Keys(s.rows) {
        if p in Carried(PhaseOf(s, e.thread)) {
          OwnHandsKeep(s, e, p);
        }
        if p in Carried(PhaseOf(r, e.thread)) {
          PhaseHolds(r, e.thread, p);
        }
      }
    }
  }

  /** In every run that drops no batch the punches themselves are kept, not only their keys. */
  lemma {:induction false} RunKeepsPunches(s: State, es: seq<Step>)
    requires Kept(s) && NeverDrops(s, es)
    ensures Kept(Run(s, es))
    decreases |es|
  {
    hide After, Kept, DropsBatch;
    if es != [] {
      StepKeepsPunches(s, es[0]);
      RunKeepsPunches(After(s, es[0]), es[1..]);
    }
  }

  /** An older punch of the key waits on disk, with another thread, behind this one in the batch, or in the push behind the batch. */
  ghost predicate OlderWaits(s: State, e: Step, p: Punch) {
    exists q :: FirstOf(s.accepted, KeyOf(p)) == Some(q) && q != p
      && (q in s.spool || q in Carried(PhaseOf(s, e.thread))
          || exists t :: t != e.thread && t in s.threads && q in Carried(s.threads[t]))
  }

  /** A step overtakes exactly when it stores a first offer of a new key while an older punch of that key waits elsewhere. */
  lemma OvertakesExactly(s: State, e: Step)
    requires Kept(s) && Grounded(s)
    ensures Overtakes(s, e) <==>
      exists p :: p in Saved(s, e) && KeyOf(p) !in Keys(s.rows) && FirstOf(Saved(s, e), KeyOf(p)) == Some(p) && OlderWaits(s, e, p)
  {
    hide Keys, Carried, Within, AcceptedSet;
    if Overtakes(s, e) {
      var p :| p in Saved(s, e) && KeyOf(p) !in Keys(s.rows)
        && FirstOf(Saved(s, e), KeyOf(p)) == Some(p) && FirstOf(s.accepted, KeyOf(p)) != Some(p);
      SavedIsAccepted(s, e, p);
      FirstOfKeys(s.accepted, KeyOf(p));
      AcceptedHasFirst(s.accepted, p);
      var q := FirstOf(s.accepted, KeyOf(p)).value;
      assert q in s.accepted && KeyOf(q) == KeyOf(p);
      assert OlderWaits(s, e, p);
    }
  }

  lemma SavedIsAccepted(s: State, e: Step, p: Punch)
    requires Grounded(s) && p in Saved(s, e)
    ensures p in s.accepted
  {
    assert p in Carried(PhaseOf(s, e.thread));
    assert p in AcceptedSet(s);
  }

  // ---------------------------------------------------------------------------
  // Coming to rest
  // ---------------------------------------------------------------------------

  /** No handler is waiting to place nothing; `ingest` returns before that. */
  predicate Sane(s: State) {
    forall t :: t in s.threads && s.threads[t].Arrived? ==> s.threads[t].own != []
  }

  lemma StepKeepsSane(s: State, e: Step)
    requires Sane(s)
    ensures Sane(After(s, e))
  {
    hide RowsAfter;
  }

  /** Steps that bring one thread to its end wherever it stands, if the database commits. */
  function Finish(t: nat): seq<Step> {
    [Step(t, Drain), Step(t, Restore), Step(t, Save(Commits)), Step(t, Save(Commits))] + [Step(t, Hold)]
  }

  function Finished(s: State, t: nat): State {
    After(After(After(After(After(s, Step(t, Drain)), Step(t, Restore)), Step(t, Save(Commits))), Step(t, Save(Commits))), Step(t, Hold))
  }

  lemma FinishRuns(s: State, t: nat)
    ensures Run(s, Finish(t)) == Finished(s, t)
    ensures NeverDrops(s, Finish(t))
  {
    hide After, Run;
    var a, b, c, d := Step(t, Drain), Step(t, Restore), Step(t, Save(Commits)), Step(t, Hold);
    RunJoin(s, [a, b, c, c], [d]);
    RunFour(s, a, b, c, c);
    RunOne(After(After(After(After(s, a), b), c), c), d);
    CommitsNeverDrop(s, Finish(t));
  }

  predicate Committing(es: seq<Step>) {
    forall i :: 0 <= i < |es| ==> !es[i].action.Accept? && (es[i].action.Save? ==> es[i].action.outcome == Commits)
  }

  lemma {:induction false} CommitsNeverDrop(s: State, es: seq<Step>)
    requires Committing(es)
    ensures NeverDrops(s, es)
    decreases |es|
  {
    hide After;
    if es != [] {
      CommitsNeverDrop(After(s, es[0]), es[1..]);
    }
  }

  /** Steps of one thread leave all others where they are. */
  lemma OthersStand(s: State, e: Step, u: nat)
    requires u != e.thread
    ensures PhaseOf(After(s, e), u) == PhaseOf(s, u)
    ensures After(s, e).threads.Keys <= s.threads.Keys + {e.thread}
  {
    hide RowsAfter;
  }

  lemma FinishedThread(s: State, t: nat)
    requires Sane(s)
    ensures PhaseOf(Finished(s, t), t).Idle?
    ensures PhaseOf(s, t).Idle? ==> Finished(s, t).spool == []
  {
    hide RowsAfter;
  }

  lemma FinishedOthers(s: State, t: nat)
    requires Sane(s)
    ensures Sane(Finished(s, t))
    ensures forall u :: u != t ==> PhaseOf(Finished(s, t), u) == PhaseOf(s, u)
    ensures Finished(s, t).threads.Keys <= s.threads.Keys + {t}
  {
    hide After, Sane;
    var a, b, c, d := Step(t, Drain), Step(t, Restore), Step(t, Save(Commits)), Step(t, Hold);
    var s1 := After(s, a);
    var s2 := After(s1, b);
    var s3 := After(s2, c);
    var s4 := After(s3, c);
    StepKeepsSane(s, a); StepKeepsSane(s1, b); StepKeepsSane(s2, c); StepKeepsSane(s3, c); StepKeepsSane(s4, d);
    OthersStand(s, a, t + 1); OthersStand(s1, b, t + 1); OthersStand(s2, c, t + 1); OthersStand(s3, c, t + 1); OthersStand(s4, d, t + 1);
    forall u | u != t
      ensures PhaseOf(Finished(s, t), u) == PhaseOf(s, u)
    {
      OthersStand(s, a, u); OthersStand(s1, b, u); OthersStand(s2, c, u); OthersStand(s3, c, u); OthersStand(s4, d, u);
    }
  }

  /** All threads outside `busy` are idle. */
  ghost predicate IdleBut(s: State, busy: set<nat>) {
    forall t :: t !in busy ==> PhaseOf(s, t).Idle?
  }

  lemma {:induction false} FinishAll(s: State, busy: set<nat>) returns (es: seq<Step>)
    requires Sane(s) && IdleBut(s, busy)
    ensures Committing(es) && Sane(Run(s, es)) && IdleBut(Run(s, es), {})
    decreases busy
  {
    hide Finished, After, Sane, Run;
    if busy == {} {
      es := [];
      RunNothing(s);
    } else {
      var t :| t in busy;
      FinishRuns(s, t);
      FinishedThread(s, t);
      FinishedOthers(s, t);
      var rest := FinishAll(Finished(s, t), busy - {t});
      es := Finish(t) + rest;
      RunJoin(s, Finish(t), rest);
    }
  }

  lemma RunNothing(s: State)
    ensures Run(s, []) == s
  {
  }

  /** From every state, whatever is spooled or carried, some schedule in which the database commits leads to rest. */
  lemma RestIsReachable(s: State) returns (es: seq<Step>)
    requires Sane(s)
    ensures Committing(es) && NeverDrops(s, es) && AtRest(Run(s, es))
  {
    hide Finished, After, Sane, Run;
    assert IdleBut(s, s.threads.Keys);
    var first := FinishAll(s, s.threads.Keys);
    var r := Run(s, first);
    FinishRuns(r, 0);
    FinishedThread(r, 0);
    FinishedOthers(r, 0);
    es := first + Finish(0);
    RunJoin(s, first, Finish(0));
    CommitsNeverDrop(s, es);
    AllIdle(Finished(r, 0));
  }

  lemma AllIdle(s: State)
    requires s.spool == [] && forall t :: PhaseOf(s, t).Idle?
    ensures AtRest(s)
  {
    assert forall t :: t in s.threads ==> s.threads[t] == PhaseOf(s, t);
  }
}
