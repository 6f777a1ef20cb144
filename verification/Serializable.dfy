/** The interleaved threads, run one at a time, do what `ingest` and `_flush` do. */
module Serializable {
  import opened Punches
  import opened LmsTable
  import P = PushIngest
  import I = Interleaving

  /** The steps of one undisturbed `ingest`; a step the thread is not ready for does nothing. */
  function IngestSteps(t: nat, held: seq<Punch>, ps: seq<Punch>, first: DbOutcome, second: DbOutcome): seq<I.Step> {
    if held == [] then [I.Step(t, I.Accept(ps)), I.Step(t, I.Drain), I.Step(t, I.Save(second)), I.Step(t, I.Hold)]
    else [I.Step(t, I.Accept(ps)), I.Step(t, I.Drain), I.Step(t, I.Save(first)), I.Step(t, I.Restore)]
         + [I.Step(t, I.Save(second)), I.Step(t, I.Hold)]
  }

  lemma RunTwo(s: I.State, a: I.Step, b: I.Step)
    ensures I.Run(s, [a, b]) == I.After(I.After(s, a), b)
  {
    hide I.After, I.Run;
    I.RunStep(s, a, [b]);
    I.RunOne(I.After(s, a), b);
    assert [a] + [b] == [a, b];
  }

  /** The table, the file, and where one thread is. */
  predicate At(s: I.State, t: nat, p: P.State, phase: I.Phase) {
    s.rows == p.rows && s.spool == p.held && I.PhaseOf(s, t) == phase
  }

  lemma AcceptThenDrain(s: I.State, t: nat, p: P.State, ps: seq<Punch>)
    requires At(s, t, p, I.Idle) && ps != []
    ensures At(I.After(I.After(s, I.Step(t, I.Accept(ps))), I.Step(t, I.Drain)), t, P.State(p.rows, []),
               if p.held == [] then I.SavingOwn(ps) else I.SavingBatch(p.held, ps))
  {
  }

  /** The batch's save and the restore that may follow. */
  lemma SaveThenRestore(s: I.State, t: nat, p: P.State, batch: seq<Punch>, own: seq<Punch>, o: DbOutcome)
    requires At(s, t, p, I.SavingBatch(batch, own)) && own != [] && p.held == []
    ensures At(I.After(I.After(s, I.Step(t, I.Save(o))), I.Step(t, I.Restore)), t,
               P.State(RowsAfter(p.rows, batch, o), if o.Commits? || o.Breaks? then [] else batch),
               if o.Commits? then I.SavingOwn(own) else I.Holding(own))
  {
    hide RowsAfter;
    assert [] + batch == batch;
  }

  /** The own save and the hold that may follow. */
  lemma SaveThenHold(s: I.State, t: nat, p: P.State, own: seq<Punch>, o: DbOutcome)
    requires At(s, t, p, I.SavingOwn(own))
    ensures At(I.After(I.After(s, I.Step(t, I.Save(o))), I.Step(t, I.Hold)), t, P.StoreOwn(p, own, o), I.Idle)
  {
    hide RowsAfter;
  }

  lemma HoldAnyway(s: I.State, t: nat, p: P.State, own: seq<Punch>, o: DbOutcome)
    requires At(s, t, p, I.Holding(own))
    ensures At(I.After(I.After(s, I.Step(t, I.Save(o))), I.Step(t, I.Hold)), t, P.State(p.rows, p.held + own), I.Idle)
  {
  }

  /** `ingest` with nobody else about is the four or six steps of its thread. */
  lemma SoloIngest(s: I.State, t: nat, ps: seq<Punch>, first: DbOutcome, second: DbOutcome)
    requires I.PhaseOf(s, t).Idle? && ps != []
    ensures At(I.Run(s, IngestSteps(t, s.spool, ps, first, second)), t,
               P.Ingested(P.State(s.rows, s.spool), ps, first, second), I.Idle)
  {
    hide RowsAfter, I.Run, I.After;
    var p := P.State(s.rows, s.spool);
    var accept, drain, own, hold := I.Step(t, I.Accept(ps)), I.Step(t, I.Drain), I.Step(t, I.Save(second)), I.Step(t, I.Hold);
    var s2 := I.After(I.After(s, accept), drain);
    AcceptThenDrain(s, t, p, ps);
    if s.spool == [] {
      I.RunFour(s, accept, drain, own, hold);
      SaveThenHold(s2, t, P.State(p.rows, []), ps, second);
    } else {
      var batch, restore := I.Step(t, I.Save(first)), I.Step(t, I.Restore);
      var s4, q := I.After(I.After(s2, batch), restore), P.State(RowsAfter(p.rows, p.held, first), if first.Commits? || first.Breaks? then [] else p.held);
      I.RunJoin(s, [accept, drain, batch, restore], [own, hold]);
      I.RunFour(s, accept, drain, batch, restore);
      RunTwo(s4, own, hold);
      SaveThenRestore(s2, t, P.State(p.rows, []), p.held, ps, first);
      if first.Commits? {
        SaveThenHold(s4, t, q, ps, second);
      } else {
        HoldAnyway(s4, t, q, ps, second);
        assert [] + ps == ps;
      }
    }
  }

  lemma FlushThenRestore(s: I.State, t: nat, p: P.State, batch: seq<Punch>, o: DbOutcome)
    requires At(s, t, p, I.SavingBatch(batch, [])) && p.held == []
    ensures At(I.After(I.After(s, I.Step(t, I.Save(o))), I.Step(t, I.Restore)), t,
               P.State(RowsAfter(p.rows, batch, o), if o.Commits? then [] else batch), I.Idle)
  {
    hide RowsAfter;
    assert [] + batch == batch;
  }

  /** `_flush` with nobody else about is drain, save and restore. */
  lemma SoloFlush(s: I.State, t: nat, o: DbOutcome)
    requires I.PhaseOf(s, t).Idle?
    ensures At(I.Run(s, [I.Step(t, I.Drain)] + [I.Step(t, I.Save(o)), I.Step(t, I.Restore)]), t,
               P.Flushed(P.State(s.rows, s.spool), o), I.Idle)
  {
    hide I.Run;
    var drain, save, restore := I.Step(t, I.Drain), I.Step(t, I.Save(o)), I.Step(t, I.Restore);
    var s1 := I.After(s, drain);
    I.RunJoin(s, [drain], [save, restore]);
    I.RunOne(s, drain);
    RunTwo(s1, save, restore);
    if s.spool == [] {
      assert I.After(I.After(s1, save), restore) == s;
    } else {
      hide I.After;
      AfterDrain(s, t);
      FlushThenRestore(s1, t, P.State(s.rows, []), s.spool, o);
    }
  }

  lemma AfterDrain(s: I.State, t: nat)
    requires I.PhaseOf(s, t).Idle? && s.spool != []
    ensures At(I.After(s, I.Step(t, I.Drain)), t, P.State(s.rows, []), I.SavingBatch(s.spool, []))
  {
  }

  // ---------------------------------------------------------------------------
  // Runs of undisturbed calls
  // ---------------------------------------------------------------------------

  /** The steps of one event, by thread `t`. */
  function EventSteps(s: I.State, t: nat, e: P.Event): seq<I.Step> {
    match e
    case Push(ps, first, second) => if ps == [] then [] else IngestSteps(t, s.spool, ps, first, second)
    case Flush(o) => [I.Step(t, I.Drain)] + [I.Step(t, I.Save(o)), I.Step(t, I.Restore)]
  }

  /** The steps of a series of events, each by a thread of its own choosing and none disturbing another. */
  function Blocks(s: I.State, who: seq<nat>, es: seq<P.Event>): seq<I.Step>
    requires |who| == |es|
    decreases |es|
  {
    if es == [] then []
    else
      var block := EventSteps(s, who[0], es[0]);
      block + Blocks(I.Run(s, block), who[1..], es[1..])
  }

  ghost predicate AllIdle(s: I.State) {
    forall t :: I.PhaseOf(s, t).Idle?
  }

  predicate By(steps: seq<I.Step>, t: nat) {
    forall i :: 0 <= i < |steps| ==> steps[i].thread == t
  }

  lemma OneThreadsStep(s: I.State, e: I.Step, u: nat)
    requires u != e.thread
    ensures I.PhaseOf(I.After(s, e), u) == I.PhaseOf(s, u)
  {
    hide RowsAfter;
  }

  lemma {:induction false} OneThreadsRun(s: I.State, steps: seq<I.Step>, t: nat, u: nat)
    requires By(steps, t) && u != t
    ensures I.PhaseOf(I.Run(s, steps), u) == I.PhaseOf(s, u)
    decreases |steps|
  {
    hide I.After;
    if steps != [] {
      OneThreadsStep(s, steps[0], u);
      OneThreadsRun(I.After(s, steps[0]), steps[1..], t, u);
    }
  }

  predicate NoAccept(steps: seq<I.Step>) {
    forall i :: 0 <= i < |steps| ==> !steps[i].action.Accept?
  }

  lemma {:induction false} AcceptedSame(s: I.State, steps: seq<I.Step>)
    requires NoAccept(steps)
    ensures I.Run(s, steps).accepted == s.accepted
    decreases |steps|
  {
    hide RowsAfter;
    if steps != [] {
      AcceptedSame(I.After(s, steps[0]), steps[1..]);
    }
  }

  lemma BlockAccepts(s: I.State, t: nat, e: P.Event)
    requires I.PhaseOf(s, t).Idle?
    ensures I.Run(s, EventSteps(s, t, e)).accepted == s.accepted + (if e.Push? then e.punches else [])
  {
    hide I.Run;
    var steps := EventSteps(s, t, e);
    if e.Push? && e.punches != [] {
      var accept := I.Step(t, I.Accept(e.punches));
      assert steps == [accept] + steps[1..];
      I.RunStep(s, accept, steps[1..]);
      AcceptedSame(I.After(s, accept), steps[1..]);
    } else {
      AcceptedSame(s, steps);
    }
  }

  /** One event undisturbed: the protocol's step, the punches accepted, and everybody idle again. */
  lemma BlockIsEvent(s: I.State, t: nat, e: P.Event)
    requires AllIdle(s)
    ensures var r := I.Run(s, EventSteps(s, t, e));
      && P.State(r.rows, r.spool) == P.After(P.State(s.rows, s.spool), e)
      && r.accepted == s.accepted + (if e.Push? then e.punches else [])
      && AllIdle(r)
  {
    hide I.Run, I.After, IngestSteps, P.Ingested, P.Flushed;
    var steps := EventSteps(s, t, e);
    var r := I.Run(s, steps);
    BlockAccepts(s, t, e);
    match e {
      case Push(ps, first, second) =>
        if ps == [] {
          NoSteps(s);
          NothingPushed(P.State(s.rows, s.spool), first, second);
        } else {
          SoloIngest(s, t, ps, first, second);
        }
      case Flush(o) => SoloFlush(s, t, o);
    }
    BlockIsBy(s, t, e);
    forall u
      ensures I.PhaseOf(r, u).Idle?
    {
      if u != t {
        OneThreadsRun(s, steps, t, u);
      }
    }
  }

  lemma NoSteps(s: I.State)
    ensures I.Run(s, []) == s
  {
  }

  lemma NothingPushed(p: P.State, first: DbOutcome, second: DbOutcome)
    ensures P.Ingested(p, [], first, second) == p
  {
  }

  lemma BlockIsBy(s: I.State, t: nat, e: P.Event)
    ensures By(EventSteps(s, t, e), t)
  {
  }

  /** A run of undisturbed calls, by any threads, is the sequential protocol's run. */
  lemma {:induction false} UndisturbedRun(s: I.State, who: seq<nat>, es: seq<P.Event>)
    requires AllIdle(s) && |who| == |es|
    ensures var r := I.Run(s, Blocks(s, who, es));
      && P.State(r.rows, r.spool) == P.Run(P.State(s.rows, s.spool), es)
      && r.accepted == s.accepted + P.Accepted(es)
      && AllIdle(r)
    decreases |es|
  {
    hide I.Run, P.After, EventSteps, AllIdle;
    if es == [] {
      NoSteps(s);
      assert s.accepted + P.Accepted(es) == s.accepted;
    } else {
      var block := EventSteps(s, who[0], es[0]);
      var next := I.Run(s, block);
      BlockIsEvent(s, who[0], es[0]);
      UndisturbedRun(next, who[1..], es[1..]);
      I.RunJoin(s, block, Blocks(next, who[1..], es[1..]));
      assert P.Accepted(es) == (if es[0].Push? then es[0].punches else []) + P.Accepted(es[1..]);
    }
  }

  /** So the eventual table of such a run is first come first kept. */
  lemma UndisturbedRunKeepsOrder(s: I.State, who: seq<nat>, es: seq<P.Event>)
    requires AllIdle(s) && |who| == |es| && s.accepted == []
    requires P.NeverDrops(P.State(s.rows, s.spool), es)
    ensures var r := I.Run(s, Blocks(s, who, es));
      InsertAll(r.rows, r.spool) == InsertAll(InsertAll(s.rows, s.spool), r.accepted)
  {
    hide I.Run, P.Run, Blocks, InsertAll;
    UndisturbedRun(s, who, es);
    P.EventualTable(P.State(s.rows, s.spool), es);
    assert [] + P.Accepted(es) == P.Accepted(es);
  }
}
