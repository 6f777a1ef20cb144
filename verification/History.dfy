/** iclock.py: the punch history kept in memory, pruned and sorted on every arrival. */
module History {
  import opened Text

  /** One logged punch; `payload` stands for the fields that neither pruning nor deduplication reads. */
  datatype Entry = Entry(userId: string, stamp: string, payload: string)

  /** How a timestamp text is read: microseconds after `datetime.min`, or None if it cannot be. */
  type Clock = string -> Option<nat>

  const DAY: nat := 86_400_000_000
  const HISTORY_DAYS: nat := 30

  // ---------------------------------------------------------------------------
  // The stable newest-first sort
  // ---------------------------------------------------------------------------

  /** `_log_timestamp(punch) or datetime.min` */
  function Rank(e: Entry, when: Clock): nat {
    match when(e.stamp) case None => 0 case Some(t) => t
  }

  /** Before the first entry that is not newer. */
  function Place(e: Entry, s: seq<Entry>, when: Clock): seq<Entry> {
    if s == [] || Rank(s[0], when) <= Rank(e, when) then [e] + s else [s[0]] + Place(e, s[1..], when)
  }

  /** `list.sort(key=..., reverse=True)` */
  function NewestFirst(s: seq<Entry>, when: Clock): seq<Entry> {
    if s == [] then [] else Place(s[0], NewestFirst(s[1..], when), when)
  }

  predicate Ordered(s: seq<Entry>, when: Clock) {
    forall i, j :: 0 <= i < j < |s| ==> Rank(s[i], when) >= Rank(s[j], when)
  }

  /** The entries of one rank, in the order they stand. */
  function OfRank(s: seq<Entry>, k: nat, when: Clock): seq<Entry> {
    if s == [] then []
    else if Rank(s[0], when) == k then [s[0]] + OfRank(s[1..], k, when)
    else OfRank(s[1..], k, when)
  }

  lemma {:induction false} PlaceMembers(e: Entry, s: seq<Entry>, when: Clock)
    ensures forall x :: x in Place(e, s, when) <==> x == e || x in s
  {
    if s != [] && Rank(s[0], when) > Rank(e, when) {
      PlaceMembers(e, s[1..], when);
      assert s == [s[0]] + s[1..];
    }
  }

  lemma {:induction false} PlaceOrdered(e: Entry, s: seq<Entry>, when: Clock)
    requires Ordered(s, when)
    ensures Ordered(Place(e, s, when), when)
  {
    hide Rank;
    if s != [] && Rank(s[0], when) > Rank(e, when) {
      var tail := Place(e, s[1..], when);
      PlaceOrdered(e, s[1..], when);
      PlaceMembers(e, s[1..], when);
      forall j | 0 <= j < |tail| ensures Rank(s[0], when) >= Rank(tail[j], when) {
        assert tail[j] in tail;
        if tail[j] != e {
          var i :| 0 <= i < |s[1..]| && s[1..][i] == tail[j];
          assert s[i + 1] == tail[j];
        }
      }
    }
  }

  lemma OfRankCons(e: Entry, s: seq<Entry>, k: nat, when: Clock)
    ensures OfRank([e] + s, k, when) == if Rank(e, when) == k then [e] + OfRank(s, k, when) else OfRank(s, k, when)
  {
    assert ([e] + s)[1..] == s;
  }

  lemma {:induction false} PlaceRanks(e: Entry, s: seq<Entry>, k: nat, when: Clock)
    ensures OfRank(Place(e, s, when), k, when) == OfRank([e] + s, k, when)
  {
    hide OfRank, Rank;
    if s != [] && Rank(s[0], when) > Rank(e, when) {
      var tail := s[1..];
      PlaceRanks(e, tail, k, when);
      assert s == [s[0]] + tail;
      OfRankCons(s[0], Place(e, tail, when), k, when);
      OfRankCons(e, tail, k, when);
      OfRankCons(e, s, k, when);
      OfRankCons(s[0], tail, k, when);
    }
  }

  lemma PlaceSpec(e: Entry, s: seq<Entry>, when: Clock)
    requires Ordered(s, when)
    ensures Ordered(Place(e, s, when), when)
    ensures forall x :: x in Place(e, s, when) <==> x == e || x in s
    ensures forall k: nat :: OfRank(Place(e, s, when), k, when) == OfRank([e] + s, k, when)
  {
    hide Ordered, Place, OfRank;
    PlaceOrdered(e, s, when);
    PlaceMembers(e, s, when);
    forall k: nat
      ensures OfRank(Place(e, s, when), k, when) == OfRank([e] + s, k, when)
    {
      PlaceRanks(e, s, k, when);
    }
  }

  /** The sort orders the entries newest first and keeps entries of one rank as they stood. */
  lemma {:induction false} SortSpec(s: seq<Entry>, when: Clock)
    ensures Ordered(NewestFirst(s, when), when)
    ensures forall x :: x in NewestFirst(s, when) <==> x in s
    ensures forall k: nat :: OfRank(NewestFirst(s, when), k, when) == OfRank(s, k, when)
  {
    if s != [] {
      var tail := NewestFirst(s[1..], when);
      SortSpec(s[1..], when);
      PlaceSpec(s[0], tail, when);
      assert s == [s[0]] + s[1..];
      forall k: nat ensures OfRank(NewestFirst(s, when), k, when) == OfRank(s, k, when) {
        assert ([s[0]] + tail)[1..] == tail;
      }
    }
  }

  lemma {:induction false} OfRankMembers(s: seq<Entry>, k: nat, when: Clock)
    ensures forall x :: x in OfRank(s, k, when) ==> x in s && Rank(x, when) == k
    ensures (exists x :: x in s && Rank(x, when) == k) ==> OfRank(s, k, when) != []
  {
    if s != [] {
      OfRankMembers(s[1..], k, when);
      assert s == [s[0]] + s[1..];
    }
  }

  /** Those two facts fix the result: any ordered list with the same entries per rank is the sort. */
  lemma {:induction false} SortIsUnique(a: seq<Entry>, b: seq<Entry>, when: Clock)
    requires Ordered(a, when) && Ordered(b, when)
    requires forall k: nat :: OfRank(a, k, when) == OfRank(b, k, when)
    ensures a == b
    decreases |a|
  {
    if a == [] {
      if b != [] {
        assert b[0] in b;
        OfRankMembers(b, Rank(b[0], when), when);
      }
    } else {
      HeadsAgree(a, b, when);
      forall k: nat ensures OfRank(a[1..], k, when) == OfRank(b[1..], k, when) {
        assert OfRank(a, k, when) == OfRank(b, k, when);
        assert Rank(a[0], when) == k ==> OfRank(a, k, when)[1..] == OfRank(a[1..], k, when);
        assert Rank(a[0], when) == k ==> OfRank(b, k, when)[1..] == OfRank(b[1..], k, when);
      }
      SortIsUnique(a[1..], b[1..], when);
      assert a == [a[0]] + a[1..] && b == [b[0]] + b[1..];
    }
  }

  lemma HeadsAgree(a: seq<Entry>, b: seq<Entry>, when: Clock)
    requires a != [] && Ordered(a, when) && Ordered(b, when)
    requires forall k: nat :: OfRank(a, k, when) == OfRank(b, k, when)
    ensures b != [] && a[0] == b[0]
  {
    var k := Rank(a[0], when);
    assert a[0] in a;
    OfRankMembers(a, k, when);
    OfRankMembers(b, k, when);
    var x := OfRank(b, k, when)[0];
    assert x in b;
    var j := Rank(b[0], when);
    assert b[0] in b;
    OfRankMembers(b, j, when);
    OfRankMembers(a, j, when);
    var y := OfRank(a, j, when)[0];
    assert y in a;
    assert k == j;
    assert OfRank(a, k, when)[0] == a[0] && OfRank(b, k, when)[0] == b[0];
  }

  // ---------------------------------------------------------------------------
  // The window
  // ---------------------------------------------------------------------------

  /** An unreadable timestamp is never pruned. */
  predicate InWindow(e: Entry, cutoff: int, when: Clock) {
    when(e.stamp).None? || when(e.stamp).value >= cutoff
  }

  function Recent(s: seq<Entry>, cutoff: int, when: Clock): seq<Entry> {
    if s == [] then []
    else if InWindow(s[0], cutoff, when) then [s[0]] + Recent(s[1..], cutoff, when)
    else Recent(s[1..], cutoff, when)
  }

  lemma {:induction false} RecentMembers(s: seq<Entry>, cutoff: int, when: Clock)
    ensures forall x :: x in Recent(s, cutoff, when) <==> x in s && InWindow(x, cutoff, when)
    ensures Ordered(s, when) ==> Ordered(Recent(s, cutoff, when), when)
  {
    if s != [] {
      RecentMembers(s[1..], cutoff, when);
      assert s == [s[0]] + s[1..];
      if Ordered(s, when) {
        var tail := Recent(s[1..], cutoff, when);
        forall j | 0 <= j < |tail| ensures Rank(s[0], when) >= Rank(tail[j], when) {
          assert tail[j] in tail;
          var i :| 0 <= i < |s[1..]| && s[1..][i] == tail[j];
          assert s[i + 1] == tail[j];
        }
        assert Ordered(s[1..], when);
      }
    }
  }

  /** A later cutoff makes an earlier one irrelevant. */
  lemma {:induction false} RecentTwice(s: seq<Entry>, early: int, late: int, when: Clock)
    requires early <= late
    ensures Recent(Recent(s, early, when), late, when) == Recent(s, late, when)
  {
    if s != [] {
      RecentTwice(s[1..], early, late, when);
      if InWindow(s[0], early, when) {
        assert Recent(s, early, when)[1..] == Recent(s[1..], early, when);
      }
    }
  }

  lemma {:induction false} RecentOfPlace(e: Entry, s: seq<Entry>, cutoff: int, when: Clock)
    requires Ordered(s, when)
    ensures Recent(Place(e, s, when), cutoff, when)
         == if InWindow(e, cutoff, when) then Place(e, Recent(s, cutoff, when), when) else Recent(s, cutoff, when)
  {
    if s == [] || Rank(s[0], when) <= Rank(e, when) {
      assert ([e] + s)[1..] == s;
      RecentMembers(s, cutoff, when);
      var r := Recent(s, cutoff, when);
      if r != [] {
        assert r[0] in r;
        var i :| 0 <= i < |s| && s[i] == r[0];
        assert Rank(s[0], when) >= Rank(s[i], when);
      }
    } else {
      RecentOfPlace(e, s[1..], cutoff, when);
      assert ([s[0]] + Place(e, s[1..], when))[1..] == Place(e, s[1..], when);
      if InWindow(s[0], cutoff, when) {
        assert Recent(s, cutoff, when)[1..] == Recent(s[1..], cutoff, when);
      }
    }
  }

  /** Pruning before or after sorting is the same. */
  lemma {:induction false} PruneThenSort(s: seq<Entry>, cutoff: int, when: Clock)
    ensures NewestFirst(Recent(s, cutoff, when), when) == Recent(NewestFirst(s, when), cutoff, when)
  {
    if s != [] {
      PruneThenSort(s[1..], cutoff, when);
      SortSpec(s[1..], when);
      RecentOfPlace(s[0], NewestFirst(s[1..], when), cutoff, when);
      if InWindow(s[0], cutoff, when) {
        assert Recent(s, cutoff, when)[1..] == Recent(s[1..], cutoff, when);
      }
    }
  }

  lemma SortTwice(s: seq<Entry>, when: Clock)
    requires Ordered(s, when)
    ensures NewestFirst(s, when) == s
  {
    SortSpec(s, when);
    SortIsUnique(NewestFirst(s, when), s, when);
  }

  /** The window of the sorted full history. */
  function Window(arrivals: seq<Entry>, cutoff: int, when: Clock): seq<Entry> {
    Recent(NewestFirst(arrivals, when), cutoff, when)
  }

  /** One arrival on the pruned list gives the same list as on the full history. */
  lemma ArrivalKeepsWindow(e: Entry, arrivals: seq<Entry>, early: int, late: int, when: Clock)
    requires early <= late
    ensures NewestFirst(Recent([e] + Window(arrivals, early, when), late, when), when)
         == Window([e] + arrivals, late, when)
  {
    var full := NewestFirst(arrivals, when);
    var pruned := Recent(full, early, when);
    SortSpec(arrivals, when);
    RecentMembers(full, early, when);
    SortTwice(pruned, when);
    PruneThenSort([e] + pruned, late, when);
    assert ([e] + pruned)[1..] == pruned && ([e] + arrivals)[1..] == arrivals;
    RecentOfPlace(e, pruned, late, when);
    RecentOfPlace(e, full, late, when);
    RecentTwice(full, early, late, when);
  }

  /** Pruning again, with no arrival. */
  lemma PruneKeepsWindow(arrivals: seq<Entry>, early: int, late: int, when: Clock)
    requires early <= late
    ensures NewestFirst(Recent(Window(arrivals, early, when), late, when), when) == Window(arrivals, late, when)
  {
    var full := NewestFirst(arrivals, when);
    SortSpec(arrivals, when);
    RecentTwice(full, early, late, when);
    RecentMembers(full, late, when);
    SortTwice(Recent(full, late, when), when);
  }

  // ---------------------------------------------------------------------------
  // Whole runs of arrivals
  // ---------------------------------------------------------------------------

  datatype Arrival = Arrival(entry: Entry, now: int)

  /** The list after each arrival in turn has been inserted in front, pruned and sorted. */
  function Replay(logs: seq<Entry>, es: seq<Arrival>, when: Clock): seq<Entry>
    decreases |es|
  {
    if es == [] then logs
    else
      var cutoff := es[0].now - HISTORY_DAYS * DAY;
      Replay(NewestFirst(Recent([es[0].entry] + logs, cutoff, when), when), es[1..], when)
  }

  /** Everything that arrived, the latest first. */
  function Arrived(es: seq<Arrival>, earlier: seq<Entry>): seq<Entry>
    decreases |es|
  {
    if es == [] then earlier else Arrived(es[1..], [es[0].entry] + earlier)
  }

  predicate Monotone(es: seq<Arrival>, start: int) {
    es == [] || (start <= es[0].now && Monotone(es[1..], es[0].now))
  }

  function LastNow(es: seq<Arrival>, start: int): int {
    if es == [] then start else LastNow(es[1..], es[0].now)
  }

  /** With a clock that never goes back, the pruned list is the window of everything that ever arrived. */
  lemma {:induction false} ReplayIsWindow(earlier: seq<Entry>, es: seq<Arrival>, start: int, when: Clock)
    requires Monotone(es, start)
    ensures Replay(Window(earlier, start - HISTORY_DAYS * DAY, when), es, when)
         == Window(Arrived(es, earlier), LastNow(es, start) - HISTORY_DAYS * DAY, when)
    decreases |es|
  {
    hide Window, NewestFirst, Recent;
    if es != [] {
      var e, now := es[0].entry, es[0].now;
      ArrivalKeepsWindow(e, earlier, start - HISTORY_DAYS * DAY, now - HISTORY_DAYS * DAY, when);
      ReplayIsWindow([e] + earlier, es[1..], now, when);
    }
  }

  // ---------------------------------------------------------------------------
  // Deduplication
  // ---------------------------------------------------------------------------

  type DedupKey = (string, string)

  function DedupKeyOf(e: Entry): DedupKey {
    (e.userId, e.stamp)
  }

  function LogKeys(s: seq<Entry>): set<DedupKey> {
    set e | e in s :: DedupKeyOf(e)
  }

  /** The records a sync adds: the first of each key that is not known yet. */
  function Fresh(records: seq<Entry>, known: set<DedupKey>): seq<Entry>
    decreases |records|
  {
    if records == [] then []
    else if DedupKeyOf(records[0]) in known then Fresh(records[1..], known)
    else [records[0]] + Fresh(records[1..], known + {DedupKeyOf(records[0])})
  }

  /** Nothing known is added, nothing is added twice, and afterwards every record is known. */
  lemma {:induction false} FreshSpec(records: seq<Entry>, known: set<DedupKey>)
    ensures var f := Fresh(records, known);
      && (forall i :: 0 <= i < |f| ==> f[i] in records && DedupKeyOf(f[i]) !in known)
      && (forall i, j :: 0 <= i < j < |f| ==> DedupKeyOf(f[i]) != DedupKeyOf(f[j]))
      && (forall r :: r in records ==> DedupKeyOf(r) in known || DedupKeyOf(r) in LogKeys(f))
    decreases |records|
  {
    if records != [] {
      var k := DedupKeyOf(records[0]);
      assert records == [records[0]] + records[1..];
      if k in known {
        FreshSpec(records[1..], known);
      } else {
        FreshSpec(records[1..], known + {k});
        var rest := Fresh(records[1..], known + {k});
        LogKeysCons(records[0], rest);
      }
    }
  }

  lemma LogKeysCons(e: Entry, s: seq<Entry>)
    ensures LogKeys([e] + s) == {DedupKeyOf(e)} + LogKeys(s)
  {
    forall k
      ensures k in LogKeys([e] + s) <==> k in {DedupKeyOf(e)} + LogKeys(s)
    {
      if k in LogKeys([e] + s) {
        var x :| x in [e] + s && DedupKeyOf(x) == k;
        assert x == e || x in s;
      }
      if k in LogKeys(s) {
        var x :| x in s && DedupKeyOf(x) == k;
        assert x in [e] + s;
      }
      assert e in [e] + s;
    }
  }

  /** If every record inside the window is logged, syncing the same records again adds only expired ones. */
  lemma ResyncAddsOnlyExpired(records: seq<Entry>, logs: seq<Entry>, cutoff: int, when: Clock)
    requires forall r :: r in records && InWindow(r, cutoff, when) ==> DedupKeyOf(r) in LogKeys(logs)
    ensures forall e :: e in Fresh(records, LogKeys(logs)) ==> !InWindow(e, cutoff, when)
  {
    FreshSpec(records, LogKeys(logs));
  }

  /** An entry still inside the later window has stayed in the list, whatever arrived since. */
  lemma LoggedStaysLogged(r: Entry, earlier: seq<Entry>, newer: seq<Entry>, early: int, late: int, when: Clock)
    requires DedupKeyOf(r) in LogKeys(Window(earlier, early, when)) && InWindow(r, late, when)
    ensures DedupKeyOf(r) in LogKeys(Window(newer + earlier, late, when))
  {
    RecentMembers(NewestFirst(earlier, when), early, when);
    SortSpec(earlier, when);
    RecentMembers(NewestFirst(newer + earlier, when), late, when);
    SortSpec(newer + earlier, when);
    var x :| x in Window(earlier, early, when) && DedupKeyOf(x) == DedupKeyOf(r);
    assert x in newer + earlier && InWindow(x, late, when);
  }

  /**
   * Records that a sync has logged are not added by a later sync of the same records while they are
   * inside the window, whatever was broadcast and pruned in between.
   */
  lemma ResyncAddsOnlyExpiredLater(records: seq<Entry>, earlier: seq<Entry>, newer: seq<Entry>, early: int, late: int, when: Clock)
    requires early <= late
    requires forall r :: r in records && InWindow(r, early, when) ==> DedupKeyOf(r) in LogKeys(Window(earlier, early, when))
    ensures forall e :: e in Fresh(records, LogKeys(Window(newer + earlier, late, when))) ==> !InWindow(e, late, when)
  {
    hide Window, LogKeys;
    forall r | r in records && InWindow(r, late, when)
      ensures DedupKeyOf(r) in LogKeys(Window(newer + earlier, late, when))
    {
      LoggedStaysLogged(r, earlier, newer, early, late, when);
    }
    ResyncAddsOnlyExpired(records, Window(newer + earlier, late, when), late, when);
  }

  function Reversed(s: seq<Entry>): seq<Entry> {
    if s == [] then [] else Reversed(s[1..]) + [s[0]]
  }

  // ---------------------------------------------------------------------------
  // By fields
  // ---------------------------------------------------------------------------

  /**
   * The window: what arrived and is unreadable or not older than the cutoff, newest first, with the
   * unreadable behind every time but the first one of the calendar.
   */
  lemma WindowByFields(arrivals: seq<Entry>, cutoff: int, when: Clock)
    ensures var w := Window(arrivals, cutoff, when);
      && (forall e :: e in w <==> e in arrivals && (when(e.stamp).None? || when(e.stamp).value >= cutoff))
      && (forall i, j :: 0 <= i < j < |w| && when(w[j].stamp).Some? && when(w[j].stamp).value > 0
            ==> when(w[i].stamp).Some? && when(w[i].stamp).value >= when(w[j].stamp).value)
  {
    var full := NewestFirst(arrivals, when);
    SortSpec(arrivals, when);
    RecentMembers(full, cutoff, when);
    var w := Window(arrivals, cutoff, when);
    forall i, j | 0 <= i < j < |w| && when(w[j].stamp).Some? && when(w[j].stamp).value > 0
      ensures when(w[i].stamp).Some? && when(w[i].stamp).value >= when(w[j].stamp).value
    {
      assert Rank(w[i], when) >= Rank(w[j], when);
    }
  }

  /** Same user and same timestamp text: what the sync loop calls known. */
  predicate SameRecord(a: Entry, b: Entry) {
    a.userId == b.userId && a.stamp == b.stamp
  }

  predicate Shows(s: seq<Entry>, r: Entry) {
    exists x :: x in s && SameRecord(x, r)
  }

  lemma ShowsIff(s: seq<Entry>, r: Entry)
    ensures Shows(s, r) <==> DedupKeyOf(r) in LogKeys(s)
  {
    if Shows(s, r) {
      var x :| x in s && SameRecord(x, r);
      assert DedupKeyOf(x) in LogKeys(s);
    }
  }

  /** The record stands at `i`, is not known, and none before it has its user and timestamp. */
  predicate FirstAt(records: seq<Entry>, known: set<DedupKey>, r: Entry, i: int) {
    && 0 <= i < |records| && records[i] == r && (r.userId, r.stamp) !in known
    && forall j :: 0 <= j < i ==> !SameRecord(records[j], r)
  }

  /** A sync adds a record exactly when no logged entry and no earlier record of the sync has its user and timestamp. */
  lemma {:induction false} AddedByFields(records: seq<Entry>, known: set<DedupKey>, r: Entry)
    ensures r in Fresh(records, known) <==> exists i :: FirstAt(records, known, r, i)
    decreases |records|
  {
    if records != [] {
      var k := (records[0].userId, records[0].stamp);
      var rest := records[1..];
      assert DedupKeyOf(records[0]) == k;
      AddedByFields(rest, if k in known then known else known + {k}, r);
      assert forall i :: 0 <= i < |rest| ==> rest[i] == records[i + 1];
      if records[0] == r && k !in known {
        assert FirstAt(records, known, r, 0);
      }
      if exists i :: FirstAt(records, known, r, i) {
        var i :| FirstAt(records, known, r, i);
        if i > 0 {
          assert rest[i - 1] == r && !SameRecord(records[0], r);
          assert FirstAt(rest, if k in known then known else known + {k}, r, i - 1);
        }
      }
      if r in Fresh(rest, if k in known then known else known + {k}) {
        var i :| FirstAt(rest, if k in known then known else known + {k}, r, i);
        assert records[i + 1] == r;
        forall j | 0 <= j < i + 1
          ensures !SameRecord(records[j], r)
        {
          assert j > 0 ==> records[j] == rest[j - 1];
        }
        assert FirstAt(records, known, r, i + 1);
      }
    }
  }

  // ---------------------------------------------------------------------------
  // The history object
  // ---------------------------------------------------------------------------

  /** What pruning keeps: nothing older than thirty days. */
  function Cutoff(now: int): int {
    now - HISTORY_DAYS * DAY
  }

  class PunchHistory {
    const when: Clock
    /** `PUNCH_LOGS` */
    var logs: seq<Entry>
    /** Every entry since the last clear, the latest arrival first. */
    ghost var arrivals: seq<Entry>
    /** The latest time the clock showed. */
    ghost var latest: int

    ghost predicate Valid()
      reads this
    {
      logs == Window(arrivals, Cutoff(latest), when)
    }

    /** Whatever the file held is pruned and sorted at import. */
    constructor (saved: seq<Entry>, now: int, when: Clock)
      ensures Valid() && arrivals == saved && latest == now && this.when == when
    {
      this.when := when;
      PruneThenSort(saved, Cutoff(now), when);
      logs := NewestFirst(Recent(saved, Cutoff(now), when), when);
      arrivals := saved;
      latest := now;
    }

    /** `prune_punch_logs()` */
    method Prune(now: int)
      requires Valid() && latest <= now
      modifies this
      ensures Valid() && arrivals == old(arrivals) && latest == now
      ensures forall e :: e in logs <==>
        e in arrivals && (when(e.stamp).None? || when(e.stamp).value >= now - 30 * 86_400_000_000)
    {
      WindowByFields(arrivals, Cutoff(now), when);
      PruneKeepsWindow(arrivals, Cutoff(latest), Cutoff(now), when);
      logs := NewestFirst(Recent(logs, Cutoff(now), when), when);
      latest := now;
    }

    /** `broadcast_punch` */
    method Broadcast(e: Entry, now: int)
      requires Valid() && latest <= now
      modifies this
      ensures Valid() && arrivals == [e] + old(arrivals) && latest == now
      ensures forall x :: x in logs <==>
        x in arrivals && (when(x.stamp).None? || when(x.stamp).value >= now - 30 * 86_400_000_000)
      ensures forall x :: x in logs ==> x == e || x in old(logs)
    {
      ArrivalKeepsWindow(e, arrivals, Cutoff(latest), Cutoff(now), when);
      WindowByFields([e] + arrivals, Cutoff(now), when);
      logs := [e] + logs;
      RecentMembers(logs, Cutoff(now), when);
      SortSpec(Recent(logs, Cutoff(now), when), when);
      logs := NewestFirst(Recent(logs, Cutoff(now), when), when);
      arrivals := [e] + arrivals;
      latest := now;
    }

    /** `get_punches(days)`: what the history would answer had it never been pruned. */
    method GetPunches(days: int, now: int) returns (rows: seq<Entry>, window: int)
      requires Valid() && latest <= now
      ensures window == if days < 1 then 1 else if days > HISTORY_DAYS then HISTORY_DAYS else days
      ensures rows == Window(arrivals, now - window * DAY, when)
      ensures forall e :: e in rows <==>
        e in arrivals && (when(e.stamp).None?
                          || when(e.stamp).value >= now - (if days < 1 then 1 else if days > 30 then 30 else days) * 86_400_000_000)
    {
      window := if days < 1 then 1 else days;
      window := if window > HISTORY_DAYS then HISTORY_DAYS else window;
      RecentTwice(NewestFirst(arrivals, when), Cutoff(latest), now - window * DAY, when);
      rows := Recent(logs, now - window * DAY, when);
      WindowByFields(arrivals, now - window * DAY, when);
    }

    /** `clear_punches` */
    method Clear()
      modifies this
      ensures Valid() && arrivals == [] && latest == old(latest)
    {
      logs := [];
      arrivals := [];
    }

    /** The loop of `sync_device_punches`, reading the clock once per record and once at the end. */
    method Sync(records: seq<Entry>, clock: seq<int>) returns (added: seq<Entry>)
      requires Valid() && |clock| == |records| + 1
      requires forall i :: 0 <= i < |clock| ==> latest <= clock[i]
      requires forall i, j :: 0 <= i < j < |clock| ==> clock[i] <= clock[j]
      modifies this
      ensures Valid()
      ensures added == Fresh(records, LogKeys(old(logs)))
      ensures arrivals == Reversed(added) + old(arrivals)
      ensures forall r :: r in records ==> Shows(old(logs), r) || Shows(added, r)
      ensures forall r :: r in added ==> r in records && !Shows(old(logs), r)
      ensures forall r :: r in records && InWindow(r, Cutoff(latest), when) ==> DedupKeyOf(r) in LogKeys(logs)
    {
      hide Window, LogKeys, DedupKeyOf, Fresh;
      var known := LogKeys(logs);
      added := [];
      NoLogKeys();
      for i := 0 to |records|
        invariant Valid() && latest <= clock[i]
        invariant Fresh(records, LogKeys(old(logs))) == added + Fresh(records[i..], known)
        invariant known == LogKeys(old(logs)) + LogKeys(added)
        invariant arrivals == Reversed(added) + old(arrivals)
        invariant LogKeys(logs) <= known
      {
        FreshStep(records, i, known);
        var key := DedupKeyOf(records[i]);
        if key in known {
          continue;
        }
        label before:
        Broadcast(records[i], clock[i]);
        GrownKeys(records[i], old@before(logs), logs);
        AddedStep(added, records[i], old(arrivals));
        known := known + {key};
        added := added + [records[i]];
      }
      NoneFresh(records, known);
      if added != [] {
        Prune(clock[|records|]);
      }
      assert added + [] == added;
      SyncedAreLogged(records, added, old(logs), old(arrivals), logs, old(latest), latest, when);
      AddedAreShown(records, old(logs));
    }
  }

  lemma AddedAreShown(records: seq<Entry>, logs: seq<Entry>)
    ensures var added := Fresh(records, LogKeys(logs));
      && (forall r :: r in records ==> Shows(logs, r) || Shows(added, r))
      && (forall r :: r in added ==> r in records && !Shows(logs, r))
  {
    hide LogKeys, Shows, Fresh;
    var added := Fresh(records, LogKeys(logs));
    FreshSpec(records, LogKeys(logs));
    forall r: Entry
      ensures (Shows(logs, r) <==> DedupKeyOf(r) in LogKeys(logs)) && (Shows(added, r) <==> DedupKeyOf(r) in LogKeys(added))
    {
      ShowsIff(logs, r);
      ShowsIff(added, r);
    }
  }

  lemma NoLogKeys()
    ensures LogKeys([]) == {}
  {
  }

  lemma NoneFresh(records: seq<Entry>, known: set<DedupKey>)
    ensures Fresh(records[|records|..], known) == []
  {
  }

  lemma FreshStep(records: seq<Entry>, i: nat, known: set<DedupKey>)
    requires i < |records|
    ensures Fresh(records[i..], known)
         == if DedupKeyOf(records[i]) in known then Fresh(records[i + 1..], known)
            else [records[i]] + Fresh(records[i + 1..], known + {DedupKeyOf(records[i])})
  {
    assert records[i..][0] == records[i] && records[i..][1..] == records[i + 1..];
  }

  lemma GrownKeys(e: Entry, before: seq<Entry>, after: seq<Entry>)
    requires forall x :: x in after ==> x == e || x in before
    ensures LogKeys(after) <= LogKeys(before) + {DedupKeyOf(e)}
  {
  }

  lemma {:induction false} LogKeysJoin(a: seq<Entry>, b: seq<Entry>)
    ensures LogKeys(a + b) == LogKeys(a) + LogKeys(b)
  {
    hide LogKeys;
    if a == [] {
      assert a + b == b;
      NoLogKeys();
    } else {
      LogKeysJoin(a[1..], b);
      LogKeysCons(a[0], a[1..]);
      LogKeysCons(a[0], a[1..] + b);
      assert a == [a[0]] + a[1..] && a + b == [a[0]] + (a[1..] + b);
    }
  }

  lemma {:induction false} ReversedJoin(a: seq<Entry>, e: Entry)
    ensures Reversed(a + [e]) == [e] + Reversed(a)
  {
    if a == [] {
      assert a + [e] == [e];
    } else {
      ReversedJoin(a[1..], e);
      assert (a + [e])[1..] == a[1..] + [e];
    }
  }

  lemma AddedStep(added: seq<Entry>, e: Entry, before: seq<Entry>)
    ensures LogKeys(added + [e]) == LogKeys(added) + {DedupKeyOf(e)}
    ensures Reversed(added + [e]) + before == [e] + (Reversed(added) + before)
    ensures forall more :: added + ([e] + more) == (added + [e]) + more
  {
    LogKeysJoin(added, [e]);
    NoLogKeys();
    LogKeysCons(e, []);
    assert [e] + [] == [e];
    ReversedJoin(added, e);
  }

  lemma {:induction false} ReversedMembers(s: seq<Entry>)
    ensures forall x :: x in Reversed(s) <==> x in s
  {
    if s != [] {
      ReversedMembers(s[1..]);
      assert s == [s[0]] + s[1..];
    }
  }

  /** After a sync every record that is still inside the window is in the log. */
  lemma SyncedAreLogged(records: seq<Entry>, added: seq<Entry>, before: seq<Entry>, earlier: seq<Entry>,
                        logs: seq<Entry>, start: int, latest: int, when: Clock)
    requires added == Fresh(records, LogKeys(before))
    requires before == Window(earlier, Cutoff(start), when)
    requires logs == Window(Reversed(added) + earlier, Cutoff(latest), when)
    ensures forall r :: r in records && InWindow(r, Cutoff(latest), when) ==> DedupKeyOf(r) in LogKeys(logs)
  {
    var cutoff := Cutoff(latest);
    FreshSpec(records, LogKeys(before));
    ReversedMembers(added);
    RecentMembers(NewestFirst(earlier, when), Cutoff(start), when);
    SortSpec(earlier, when);
    RecentMembers(NewestFirst(Reversed(added) + earlier, when), cutoff, when);
    SortSpec(Reversed(added) + earlier, when);
    forall r | r in records && InWindow(r, cutoff, when)
      ensures DedupKeyOf(r) in LogKeys(logs)
    {
      var x :| (x in before || x in added) && DedupKeyOf(x) == DedupKeyOf(r);
      assert x in Reversed(added) + earlier;
      assert InWindow(x, cutoff, when);
    }
  }
}
