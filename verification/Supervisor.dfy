/** supervisor.py: the timer thread that keeps the spool draining. */
module Supervisor {
  import opened Punches
  import opened TextLines
  import opened Spool
  import opened LmsTable
  import opened PushIngest

  datatype Announcement = Unreachable | ReachableAgain

  /** The loop after some wake-ups: what it said, whether an outage is announced, whether the thread lives. */
  datatype Patrol = Patrol(state: State, said: seq<Announcement>, announced: bool, alive: bool)

  function Say(a: seq<Announcement>, p: Patrol): Patrol {
    p.(said := a + p.said)
  }

  /** `_run` over one database outcome per wake-up, with no push in between. */
  function Patrolled(s: State, announced: bool, ticks: seq<DbOutcome>): Patrol
    decreases |ticks|
  {
    if ticks == [] then Patrol(s, [], announced, true)
    else if s.held == [] then Patrolled(s, announced, ticks[1..])
    else
      var t := Flushed(s, ticks[0]);
      match ticks[0]
      case Breaks => Patrol(t, [], announced, false)
      case Commits => Say(if announced then [ReachableAgain] else [], Patrolled(t, false, ticks[1..]))
      case _ => Say(if announced then [] else [Unreachable], Patrolled(t, true, ticks[1..]))
  }

  /** However the database behaves, nothing on disk is lost and nothing is stored that was not held. */
  lemma {:induction false} PatrolKeeps(s: State, announced: bool, ticks: seq<DbOutcome>)
    ensures Eventual(Patrolled(s, announced, ticks).state) == Eventual(s)
    decreases |ticks|
  {
    hide Eventual;
    if ticks != [] {
      FlushKeeps(s, ticks[0]);
      PatrolKeeps(s, announced, ticks[1..]);
      PatrolKeeps(Flushed(s, ticks[0]), false, ticks[1..]);
      PatrolKeeps(Flushed(s, ticks[0]), true, ticks[1..]);
    }
  }

  /** Announcements alternate, starting with the outage unless one is already announced. */
  predicate Alternates(said: seq<Announcement>, announced: bool) {
    said == [] || (said[0] == (if announced then ReachableAgain else Unreachable) && Alternates(said[1..], !announced))
  }

  lemma {:induction false} PatrolAlternates(s: State, announced: bool, ticks: seq<DbOutcome>)
    ensures Alternates(Patrolled(s, announced, ticks).said, announced)
    decreases |ticks|
  {
    hide Flushed;
    if ticks == [] {
    } else if s.held == [] {
      PatrolAlternates(s, announced, ticks[1..]);
    } else {
      var t := Flushed(s, ticks[0]);
      match ticks[0]
      case Breaks =>
      case Commits =>
        PatrolAlternates(t, false, ticks[1..]);
        SaidStep(ReachableAgain, Patrolled(t, false, ticks[1..]).said);
      case _ =>
        PatrolAlternates(t, true, ticks[1..]);
        SaidStep(Unreachable, Patrolled(t, true, ticks[1..]).said);
    }
  }

  lemma {:induction false} AlternatesByPlace(said: seq<Announcement>, announced: bool, i: nat)
    requires Alternates(said, announced) && i < |said|
    ensures said[i] == if (i % 2 == 0) == announced then ReachableAgain else Unreachable
  {
    if i > 0 {
      AlternatesByPlace(said[1..], !announced, i - 1);
    }
  }

  /** Place by place: from no outage announced, every other announcement is an outage, the first one included. */
  lemma OutagesAlternate(s: State, ticks: seq<DbOutcome>, i: nat)
    requires i < |Patrolled(s, false, ticks).said|
    ensures Patrolled(s, false, ticks).said[i] == if i % 2 == 0 then Unreachable else ReachableAgain
  {
    hide Patrolled;
    PatrolAlternates(s, false, ticks);
    AlternatesByPlace(Patrolled(s, false, ticks).said, false, i);
  }

  lemma SaidStep(a: Announcement, said: seq<Announcement>)
    ensures ([a] + said)[0] == a && ([a] + said)[1..] == said && [] + said == said
  {
  }

  /** Some wake-up commits, with no unforeseen exception before it. */
  predicate Recovers(ticks: seq<DbOutcome>) {
    ticks != [] && !ticks[0].Breaks? && (ticks[0].Commits? || Recovers(ticks[1..]))
  }

  /** Some wake-up meets an unforeseen exception, with no commit before it. */
  predicate BreaksFirst(ticks: seq<DbOutcome>) {
    ticks != [] && !ticks[0].Commits? && (ticks[0].Breaks? || BreaksFirst(ticks[1..]))
  }

  lemma {:induction false} IdlePatrol(s: State, announced: bool, ticks: seq<DbOutcome>)
    requires s.held == []
    ensures Patrolled(s, announced, ticks) == Patrol(s, [], announced, true)
    decreases |ticks|
  {
    if ticks != [] {
      IdlePatrol(s, announced, ticks[1..]);
    }
  }

  /**
   * The thread empties the spool exactly when the database comes back before an unforeseen exception,
   * and it is dead exactly when that exception comes first: only LmsUnavailableError is caught.
   */
  lemma {:induction false} PatrolOutcome(s: State, announced: bool, ticks: seq<DbOutcome>)
    requires s.held != []
    ensures var p := Patrolled(s, announced, ticks);
      && (p.state.held == [] <==> Recovers(ticks))
      && (!p.alive <==> BreaksFirst(ticks))
      && (p.state.held == [] || p.state.held == s.held)
    decreases |ticks|
  {
    hide Eventual, RowsAfter;
    if ticks != [] {
      var t := Flushed(s, ticks[0]);
      match ticks[0]
      case Breaks =>
      case Commits => IdlePatrol(t, false, ticks[1..]);
      case _ => PatrolOutcome(t, true, ticks[1..]);
    }
  }

  class SyncSupervisor {
    const bridge: Bridge

    constructor (bridge: Bridge)
      ensures this.bridge == bridge
    {
      this.bridge := bridge;
    }

    /** The loop of `_run`, one wake-up per outcome; `alive` is false when an exception ended the thread. */
    method Run(ticks: seq<DbOutcome>) returns (said: seq<Announcement>, alive: bool)
      requires bridge.Valid()
      modifies bridge, bridge.spool, bridge.db
      ensures bridge.Valid()
      ensures var p := Patrolled(old(bridge.View()), false, ticks);
        bridge.View() == p.state && said == p.said && alive == p.alive
    {
      hide Eventual, Flushed, Render, Kept, Lines, ReadLines;
      var announced := false;
      said, alive := [], true;
      for i := 0 to |ticks|
        invariant bridge.Valid() && alive
        invariant announced ==> FileText(bridge.spool.file) == Render(bridge.held)
        invariant Patrolled(old(bridge.View()), false, ticks)
               == Say(said, Patrolled(bridge.View(), announced, ticks[i..]))
      {
        assert ticks[i..][0] == ticks[i] && ticks[i..][1..] == ticks[i + 1..];
        DrainRestores(bridge.held);
        NothingPending(FileText(bridge.spool.file));
        NothingToFlush(bridge.View(), ticks[i]);
        var waiting := bridge.spool.Pending();
        if waiting > 0 {
          var r := bridge.FlushHeld(ticks[i]);
          if r.Crash? {
            assert said + [] == said;
            return said, false;
          }
          var down := r.Outage?;
          var news := if down == announced then [] else if down then [Unreachable] else [ReachableAgain];
          SayTwice(said, news, Patrolled(bridge.View(), down, ticks[i + 1..]));
          said, announced := said + news, down;
        }
      }
      assert said + [] == said;
    }
  }

  lemma NothingPending(text: string)
    requires DrainText(text).Batch?
    ensures |Kept(Lines(text))| == 0 ==> DrainText(text) == Batch([])
  {
  }

  lemma NothingToFlush(s: State, o: DbOutcome)
    ensures s.held == [] ==> Flushed(s, o) == s
  {
  }

  lemma SayTwice(a: seq<Announcement>, b: seq<Announcement>, p: Patrol)
    ensures Say(a, Say(b, p)) == Say(a + b, p)
  {
    assert a + (b + p.said) == (a + b) + p.said;
  }
}
