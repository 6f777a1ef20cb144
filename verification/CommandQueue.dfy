/** iclock.py: commands waiting for a reader's next poll. */
module CommandQueue {
  import opened Text

  datatype Event = Queue(sn: string, body: string) | Poll(sn: string)

  datatype State = State(counter: nat, waiting: map<string, seq<string>>)

  function Serial(sn: string): string {
    Upper(Strip(sn))
  }

  function Command(number: nat, body: string): string {
    "C:" + Decimal(number) + ":" + Strip(body)
  }

  function Waiting(s: State, serial: string): seq<string> {
    if serial in s.waiting then s.waiting[serial] else []
  }

  function Next(s: State, e: Event): State {
    match e
    case Queue(sn, body) =>
      State(s.counter + 1, s.waiting[Serial(sn) := Waiting(s, Serial(sn)) + [Command(s.counter + 1, body)]])
    case Poll(sn) =>
      var q := Waiting(s, Serial(sn));
      if Serial(sn) == [] || q == [] then s else s.(waiting := s.waiting[Serial(sn) := q[1..]])
  }

  /** What a poll is answered with; None is the plain OK. */
  function Answer(s: State, sn: string): Option<string> {
    var q := Waiting(s, Serial(sn));
    if Serial(sn) == [] || q == [] then None else Some(q[0])
  }

  function Run(s: State, events: seq<Event>): State
    decreases |events|
  {
    if events == [] then s else Run(Next(s, events[0]), events[1..])
  }

  /** The commands issued for a serial, in order. */
  function Issued(s: State, events: seq<Event>, serial: string): seq<string>
    decreases |events|
  {
    if events == [] then []
    else
      var rest := Issued(Next(s, events[0]), events[1..], serial);
      if events[0].Queue? && Serial(events[0].sn) == serial then [Command(s.counter + 1, events[0].body)] + rest else rest
  }

  /** The commands its polls were answered with, in order. */
  function Dispatched(s: State, events: seq<Event>, serial: string): seq<string>
    decreases |events|
  {
    if events == [] then []
    else
      var rest := Dispatched(Next(s, events[0]), events[1..], serial);
      if events[0].Poll? && Serial(events[0].sn) == serial && Answer(s, events[0].sn).Some?
      then [Answer(s, events[0].sn).value] + rest
      else rest
  }

  /**
   * Whatever the order of commands and polls, under whatever spelling of the serial, every command is
   * dispatched once, first come first served, or is still waiting.
   */
  lemma {:induction false} FirstInFirstOut(s: State, events: seq<Event>, serial: string)
    ensures Dispatched(s, events, serial) + Waiting(Run(s, events), serial)
         == Waiting(s, serial) + Issued(s, events, serial)
    decreases |events|
  {
    hide Serial, Command;
    if events != [] {
      var e, next := events[0], Next(s, events[0]);
      FirstInFirstOut(next, events[1..], serial);
      var before, end := Waiting(s, serial), Waiting(Run(s, events), serial);
      var given, issued := Dispatched(next, events[1..], serial), Issued(next, events[1..], serial);
      if Serial(e.sn) == serial {
        if e.Queue? {
          var c := Command(s.counter + 1, e.body);
          assert (before + [c]) + issued == before + ([c] + issued);
        } else if serial != [] && before != [] {
          assert ([before[0]] + given) + end == [before[0]] + (given + end);
          assert [before[0]] + (before[1..] + issued) == before + issued;
        }
      }
    }
  }

  /** A command queued for a blank serial is never dispatched. */
  lemma {:induction false} BlankSerialWaitsForever(s: State, events: seq<Event>)
    ensures Dispatched(s, events, []) == []
    decreases |events|
  {
    hide Serial, Next;
    if events != [] {
      BlankSerialWaitsForever(Next(s, events[0]), events[1..]);
    }
  }

  function Polls(sn: string, n: nat): seq<Event> {
    if n == 0 then [] else [Poll(sn)] + Polls(sn, n - 1)
  }

  /**
   * Each poll takes one command, first come first served, exactly when the serial is not blank: after
   * `n` polls the first `n` commands waiting are gone, or none is.
   */
  lemma {:induction false} PollsDispatchExactly(s: State, sn: string, n: nat)
    ensures var before, after := Waiting(s, Serial(sn)), Waiting(Run(s, Polls(sn, n)), Serial(sn));
      after == if Serial(sn) == [] then before else before[if n <= |before| then n else |before|..]
    decreases n
  {
    hide Serial, Command;
    if n > 0 {
      assert Polls(sn, n)[1..] == Polls(sn, n - 1);
      PollsDispatchExactly(Next(s, Poll(sn)), sn, n - 1);
    }
  }

  /** The second of a command's colon-separated parts is its number. */
  lemma CommandTellsNumber(n: nat, body: string)
    ensures |Split(Command(n, body), ':')| > 1 && Split(Command(n, body), ':')[1] == Decimal(n)
  {
    hide Strip, Split, Decimal;
    DecimalReads(n);
    assert Command(n, body) == "C" + [':'] + (Decimal(n) + [':'] + Strip(body));
    SplitJoin("C", ':', Decimal(n) + [':'] + Strip(body));
    SplitJoin(Decimal(n), ':', Strip(body));
  }

  lemma CommandsDiffer(m: nat, n: nat, a: string, b: string)
    requires m != n
    ensures Command(m, a) != Command(n, b)
  {
    hide Command, Split;
    CommandTellsNumber(m, a);
    CommandTellsNumber(n, b);
    DecimalReads(m);
    DecimalReads(n);
  }

  /** Behind its number a command carries the stripped body. */
  lemma CommandCarriesBody(n: nat, body: string)
    ensures var c := Command(n, body); |c| >= |Strip(body)| && c[|c| - |Strip(body)|..] == Strip(body)
    ensures Strip(body) == [] || Command(n, body)[|Command(n, body)| - |Strip(body)| - 1] == ':'
  {
    hide Strip, Decimal;
  }

  /**
   * A command queued under one spelling of a serial is the answer to a poll under another, where nothing
   * waited: blanks around it and case do not matter, and nothing else is ignored.
   */
  lemma SpellingsOfASerial(s: State, a: string, body: string, b: string)
    requires Waiting(s, Upper(Strip(a))) == [] && Waiting(s, Upper(Strip(b))) == []
    ensures Answer(Next(s, Queue(a, body)), b) == (
      if Upper(Strip(a)) == Upper(Strip(b)) && Strip(b) != []
      then Some("C:" + Decimal(s.counter + 1) + ":" + Strip(body)) else None)
  {
    hide Strip, Decimal;
  }

  /** All commands issued in a run are different, and none repeats one issued before. */
  lemma {:induction false} NumbersAreFresh(s: State, events: seq<Event>, serial: string, n: nat, body: string)
    requires n <= s.counter
    ensures Command(n, body) !in Issued(s, events, serial)
    decreases |events|
  {
    hide Command, Serial;
    if events != [] {
      NumbersAreFresh(Next(s, events[0]), events[1..], serial, n, body);
      if events[0].Queue? {
        CommandsDiffer(n, s.counter + 1, body, events[0].body);
      }
    }
  }

  lemma {:induction false} IssuedOnce(s: State, events: seq<Event>, serial: string)
    ensures forall i, j :: 0 <= i < j < |Issued(s, events, serial)| ==> Issued(s, events, serial)[i] != Issued(s, events, serial)[j]
    decreases |events|
  {
    hide Command, Serial;
    if events != [] {
      var next := Next(s, events[0]);
      IssuedOnce(next, events[1..], serial);
      if events[0].Queue? {
        NumbersAreFresh(next, events[1..], serial, s.counter + 1, events[0].body);
      }
    }
  }

  class Commands {
    var counter: nat
    var waiting: map<string, seq<string>>

    constructor ()
      ensures counter == 1000 && waiting == map[]
    {
      counter, waiting := 1000, map[];
    }

    function Now(): State
      reads this
    {
      State(counter, waiting)
    }

    method QueueCommand(sn: string, body: string) returns (cmd: string)
      modifies this
      ensures Now() == Next(old(Now()), Queue(sn, body)) && cmd == Command(old(counter) + 1, body)
    {
      counter := counter + 1;
      cmd := Command(counter, body);
      var serial := Serial(sn);
      if serial !in waiting {
        waiting := waiting[serial := []];
      }
      waiting := waiting[serial := waiting[serial] + [cmd]];
    }

    method GetRequest(sn: string) returns (cmd: Option<string>)
      modifies this
      ensures Now() == Next(old(Now()), Poll(sn)) && cmd == Answer(old(Now()), sn)
    {
      var serial := Serial(sn);
      if serial != [] && serial in waiting && waiting[serial] != [] {
        cmd := Some(waiting[serial][0]);
        waiting := waiting[serial := waiting[serial][1..]];
      } else {
        cmd := None;
      }
    }
  }
}
