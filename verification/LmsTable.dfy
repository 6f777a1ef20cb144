/** lms_db.py: `biometric_punch_log` and the batch insert into it. */
module LmsTable {
  import opened Punches

  // ---------------------------------------------------------------------------
  // INSERT ... ON CONFLICT DO NOTHING
  // ---------------------------------------------------------------------------

  function Insert(rows: seq<Punch>, p: Punch): seq<Punch> {
    if KeyOf(p) in Keys(rows) then rows else rows + [p]
  }

  function InsertAll(rows: seq<Punch>, ps: seq<Punch>): seq<Punch>
    decreases |ps|
  {
    if ps == [] then rows else InsertAll(Insert(rows, ps[0]), ps[1..])
  }

  /** The unique constraint. */
  predicate Unique(rows: seq<Punch>) {
    forall i, j :: 0 <= i < j < |rows| ==> KeyOf(rows[i]) != KeyOf(rows[j])
  }

  lemma KeysJoin(a: seq<Punch>, b: seq<Punch>)
    ensures Keys(a + b) == Keys(a) + Keys(b)
  {
    forall k
      ensures k in Keys(a + b) <==> k in Keys(a) + Keys(b)
    {
      if k in Keys(a + b) {
        var p :| p in a + b && KeyOf(p) == k;
        assert p in a || p in b;
      }
      if k in Keys(a) + Keys(b) {
        var p :| (p in a || p in b) && KeyOf(p) == k;
        assert p in a + b;
      }
    }
  }

  lemma KeysOne(p: Punch)
    ensures Keys([p]) == {KeyOf(p)}
  {
    assert p in [p];
  }

  lemma {:induction false} InsertAllJoin(rows: seq<Punch>, a: seq<Punch>, b: seq<Punch>)
    ensures InsertAll(rows, a + b) == InsertAll(InsertAll(rows, a), b)
    decreases |a|
  {
    if a == [] {
      assert a + b == b;
    } else {
      InsertAllJoin(Insert(rows, a[0]), a[1..], b);
      assert (a + b)[1..] == a[1..] + b;
    }
  }

  lemma InsertKeys(rows: seq<Punch>, p: Punch)
    ensures Keys(Insert(rows, p)) == Keys(rows) + {KeyOf(p)}
  {
    KeysJoin(rows, [p]);
    KeysOne(p);
  }

  /** Exactly the offered keys are in the table afterwards, besides those that were. */
  lemma {:induction false} InsertAllKeys(rows: seq<Punch>, ps: seq<Punch>)
    ensures Keys(InsertAll(rows, ps)) == Keys(rows) + Keys(ps)
    decreases |ps|
  {
    if ps != [] {
      InsertAllKeys(Insert(rows, ps[0]), ps[1..]);
      InsertKeys(rows, ps[0]);
      KeysJoin([ps[0]], ps[1..]);
      KeysOne(ps[0]);
      assert [ps[0]] + ps[1..] == ps;
    }
  }

  /** Offering what is already there changes nothing. */
  lemma {:induction false} InsertAllSettled(rows: seq<Punch>, ps: seq<Punch>)
    requires Keys(ps) <= Keys(rows)
    ensures InsertAll(rows, ps) == rows
    decreases |ps|
  {
    if ps != [] {
      assert ps[0] in ps && KeyOf(ps[0]) in Keys(ps);
      assert Keys(ps[1..]) <= Keys(ps);
      InsertAllSettled(rows, ps[1..]);
    }
  }

  /** Offering a batch again, with more behind it, is offering it once. */
  lemma InsertAllAgain(rows: seq<Punch>, a: seq<Punch>, b: seq<Punch>)
    ensures InsertAll(InsertAll(rows, a), a + b) == InsertAll(rows, a + b)
  {
    InsertAllKeys(rows, a);
    InsertAllSettled(InsertAll(rows, a), a);
    InsertAllJoin(InsertAll(rows, a), a, b);
    InsertAllJoin(rows, a, b);
  }

  lemma InsertUnique(rows: seq<Punch>, p: Punch)
    requires Unique(rows)
    ensures Unique(Insert(rows, p))
  {
    forall i | 0 <= i < |rows| ensures KeyOf(rows[i]) in Keys(rows) {
    }
  }

  /** A row is never changed or removed, rows stay unique, and nothing but offered rows is added. */
  lemma {:induction false} InsertAllGrows(rows: seq<Punch>, ps: seq<Punch>)
    requires Unique(rows)
    ensures Unique(InsertAll(rows, ps)) && rows <= InsertAll(rows, ps)
    ensures forall p :: p in InsertAll(rows, ps) ==> p in rows || p in ps
    decreases |ps|
  {
    if ps != [] {
      InsertUnique(rows, ps[0]);
      InsertAllGrows(Insert(rows, ps[0]), ps[1..]);
    }
  }

  /** Of several offers with one new key, the first is the one stored. */
  lemma {:induction false} FirstOfferWins(rows: seq<Punch>, ps: seq<Punch>, i: nat)
    requires Unique(rows) && i < |ps| && KeyOf(ps[i]) !in Keys(rows)
    requires forall j :: 0 <= j < i ==> KeyOf(ps[j]) != KeyOf(ps[i])
    ensures ps[i] in InsertAll(rows, ps)
    decreases |ps|
  {
    InsertUnique(rows, ps[0]);
    if i == 0 {
      InsertAllGrows(Insert(rows, ps[0]), ps[1..]);
      assert ps[0] == Insert(rows, ps[0])[|rows|];
    } else {
      InsertKeys(rows, ps[0]);
      FirstOfferWins(Insert(rows, ps[0]), ps[1..], i - 1);
    }
  }

  // ---------------------------------------------------------------------------
  // By fields
  // ---------------------------------------------------------------------------

  /** Same reader, same PIN, same time: what the database calls a duplicate. */
  predicate SamePunch(p: Punch, q: Punch) {
    p.deviceSerial == q.deviceSerial && p.deviceUserId == q.deviceUserId && p.deviceTime == q.deviceTime
  }

  /** Some row is of that reader, PIN and time. */
  predicate HasRow(rows: seq<Punch>, p: Punch) {
    exists q :: q in rows && q.deviceSerial == p.deviceSerial && q.deviceUserId == p.deviceUserId && q.deviceTime == p.deviceTime
  }

  lemma KeyIsTheTriple(p: Punch, q: Punch)
    ensures KeyOf(p) == KeyOf(q) <==> SamePunch(p, q)
  {
  }

  lemma HasRowIff(rows: seq<Punch>, p: Punch)
    ensures HasRow(rows, p) <==> KeyOf(p) in Keys(rows)
  {
    hide KeyOf;
    if HasRow(rows, p) {
      var q :| q in rows && SamePunch(q, p);
      KeyIsTheTriple(q, p);
      assert KeyOf(q) in Keys(rows);
    }
    if KeyOf(p) in Keys(rows) {
      var q :| q in rows && KeyOf(q) == KeyOf(p);
      KeyIsTheTriple(q, p);
    }
  }

  /**
   * After a batch a punch has a row of its reader, PIN and time exactly when it had one before or the
   * batch brought one, and no two rows agree in all three.
   */
  lemma EveryPunchHasItsOneRow(rows: seq<Punch>, ps: seq<Punch>)
    requires Unique(rows)
    ensures forall p: Punch :: HasRow(InsertAll(rows, ps), p) <==> HasRow(rows, p) || HasRow(ps, p)
    ensures forall p :: p in ps ==> HasRow(InsertAll(rows, ps), p)
    ensures var after := InsertAll(rows, ps);
      forall i, j :: 0 <= i < j < |after| ==> !SamePunch(after[i], after[j])
  {
    hide HasRow, SamePunch, KeyOf, Keys;
    var after := InsertAll(rows, ps);
    InsertAllKeys(rows, ps);
    InsertAllGrows(rows, ps);
    forall p: Punch
      ensures HasRow(after, p) <==> HasRow(rows, p) || HasRow(ps, p)
      ensures p in ps ==> HasRow(ps, p)
    {
      HasRowIff(after, p);
      HasRowIff(rows, p);
      HasRowIff(ps, p);
      HasItself(ps, p);
    }
    forall i, j | 0 <= i < j < |after|
      ensures !SamePunch(after[i], after[j])
    {
      KeyIsTheTriple(after[i], after[j]);
    }
  }

  lemma HasItself(ps: seq<Punch>, p: Punch)
    ensures p in ps ==> HasRow(ps, p)
  {
  }

  lemma CountOne<T>(k: T, later: set<T>, known: set<T>)
    ensures |({k} + later) - known| == (if k in known then 0 else 1) + |later - (known + {k})|
  {
    if k in known {
      assert ({k} + later) - known == later - (known + {k});
    } else {
      assert ({k} + later) - known == {k} + (later - (known + {k}));
    }
  }

  lemma KeysStep(ps: seq<Punch>)
    requires ps != []
    ensures Keys(ps) == {KeyOf(ps[0])} + Keys(ps[1..])
  {
    KeysJoin([ps[0]], ps[1..]);
    KeysOne(ps[0]);
    assert [ps[0]] + ps[1..] == ps;
  }

  /** The number of rows added is the number of new keys. */
  lemma {:induction false} InsertAllCount(rows: seq<Punch>, ps: seq<Punch>)
    ensures |InsertAll(rows, ps)| == |rows| + |Keys(ps) - Keys(rows)|
    decreases |ps|
  {
    hide Keys;
    if ps == [] {
      NoKeys();
      assert {} - Keys(rows) == {};
    } else {
      InsertAllCount(Insert(rows, ps[0]), ps[1..]);
      InsertKeys(rows, ps[0]);
      KeysStep(ps);
      CountOne(KeyOf(ps[0]), Keys(ps[1..]), Keys(rows));
    }
  }

  lemma NoKeys()
    ensures Keys([]) == {}
  {
  }

  // ---------------------------------------------------------------------------
  // save_punches
  // ---------------------------------------------------------------------------

  /**
   * How one transaction ends. `Refuses` is any psycopg2 error before the commit took effect, while
   * page `page` was being sent or at the commit itself; `CommitsThenErrors` is a commit whose answer
   * was lost; `Breaks` is any other exception.
   */
  datatype DbOutcome = Commits | Refuses(page: nat) | CommitsThenErrors | Breaks

  datatype SaveResult = Stored(offered: nat, inserted: nat) | Unavailable | Unexpected

  predicate TakesEffect(o: DbOutcome) {
    o.Commits? || o.CommitsThenErrors?
  }

  function RowsAfter(rows: seq<Punch>, ps: seq<Punch>, o: DbOutcome): seq<Punch> {
    if TakesEffect(o) then InsertAll(rows, ps) else rows
  }

  const PAGE_SIZE: nat := 500

  class LmsDatabase {
    var rows: seq<Punch>

    constructor (rows: seq<Punch>)
      ensures this.rows == rows
    {
      this.rows := rows;
    }

    /** Pages of 500 in one transaction; the count is of the rows that were new. */
    method SavePunches(punches: seq<Punch>, outcome: DbOutcome) returns (r: SaveResult)
      modifies this
      ensures punches == [] ==> rows == old(rows) && r == Stored(0, 0)
      ensures punches != [] ==> rows == RowsAfter(old(rows), punches, outcome)
      ensures punches != [] ==>
        match outcome
        case Commits => r == Stored(|punches|, |Keys(punches) - Keys(old(rows))|)
        case Refuses(_) => r == Unavailable
        case CommitsThenErrors => r == Unavailable
        case Breaks => r == Unexpected
      ensures TakesEffect(outcome) ==> forall p :: p in punches ==> HasRow(rows, p)
      ensures old(Distinct(rows)) ==> Distinct(rows)
    {
      hide HasRow, SamePunch;
      RowsByField(rows, punches);
      if punches == [] {
        return Stored(0, 0);
      }
      var staged, inserted, sent := SendPages(rows, punches, outcome);
      if !sent {
        return Unavailable;
      }
      InsertAllCount(rows, punches);
      match outcome
      case Breaks => r := Unexpected;
      case Refuses(_) => r := Unavailable;
      case CommitsThenErrors =>
        rows := staged;
        r := Unavailable;
      case Commits =>
        rows := staged;
        r := Stored(|punches|, inserted);
    }
  }

  /** No two rows agree in reader, PIN and time. */
  predicate Distinct(rows: seq<Punch>) {
    forall i, j :: 0 <= i < j < |rows| ==> !SamePunch(rows[i], rows[j])
  }

  lemma DistinctIsUnique(rows: seq<Punch>)
    ensures Distinct(rows) <==> Unique(rows)
  {
    hide SamePunch, KeyOf;
    forall i, j | 0 <= i < j < |rows|
      ensures SamePunch(rows[i], rows[j]) <==> KeyOf(rows[i]) == KeyOf(rows[j])
    {
      KeyIsTheTriple(rows[i], rows[j]);
    }
  }

  lemma RowsByField(rows: seq<Punch>, ps: seq<Punch>)
    ensures forall p :: p in ps ==> HasRow(InsertAll(rows, ps), p)
    ensures Distinct(rows) ==> Distinct(InsertAll(rows, ps))
  {
    hide HasRow, SamePunch, KeyOf, Keys, Distinct;
    DistinctIsUnique(rows);
    DistinctIsUnique(InsertAll(rows, ps));
    if Unique(rows) {
      InsertAllGrows(rows, ps);
    }
    InsertAllKeys(rows, ps);
    forall p | p in ps
      ensures HasRow(InsertAll(rows, ps), p)
    {
      HasRowIff(InsertAll(rows, ps), p);
      HasRowIff(ps, p);
      HasItself(ps, p);
    }
  }

  /** The pages of one transaction, up to the one that is refused. */
  method SendPages(rows: seq<Punch>, punches: seq<Punch>, outcome: DbOutcome)
    returns (staged: seq<Punch>, inserted: nat, sent: bool)
    ensures sent ==> staged == InsertAll(rows, punches) && |staged| == |rows| + inserted
    ensures !sent <==> outcome.Refuses? && outcome.page * 500 < |punches|
  {
    hide InsertAll;
    NothingOffered(rows);
    staged, inserted := rows, 0;
    var at, page := 0, 0;
    while at < |punches|
      invariant at <= |punches| && (at == page * PAGE_SIZE || (at == |punches| && at <= page * PAGE_SIZE))
      invariant staged == InsertAll(rows, punches[..at]) && |staged| == |rows| + inserted
      invariant outcome.Refuses? ==> page <= outcome.page
    {
      if outcome == Refuses(page) {
        return staged, inserted, false;
      }
      var end := if at + PAGE_SIZE <= |punches| then at + PAGE_SIZE else |punches|;
      var added;
      staged, added := InsertPage(staged, punches[at..end]);
      PageJoin(rows, punches, at, end);
      inserted, at, page := inserted + added, end, page + 1;
    }
    assert punches[..at] == punches;
    sent := true;
  }

  lemma PageJoin(rows: seq<Punch>, punches: seq<Punch>, at: nat, end: nat)
    requires at <= end <= |punches|
    ensures InsertAll(InsertAll(rows, punches[..at]), punches[at..end]) == InsertAll(rows, punches[..end])
  {
    InsertAllJoin(rows, punches[..at], punches[at..end]);
    assert punches[..at] + punches[at..end] == punches[..end];
  }

  lemma NothingOffered(rows: seq<Punch>)
    ensures InsertAll(rows, []) == rows
  {
  }

  /** One INSERT statement, with the number of ids it returns. */
  method InsertPage(rows: seq<Punch>, page: seq<Punch>) returns (staged: seq<Punch>, added: nat)
    ensures staged == InsertAll(rows, page) && |staged| == |rows| + added
  {
    staged, added := rows, 0;
    for i := 0 to |page|
      invariant staged == InsertAll(rows, page[..i]) && |staged| == |rows| + added
    {
      InsertAllJoin(rows, page[..i], [page[i]]);
      assert page[..i] + [page[i]] == page[..i + 1];
      assert [page[i]][1..] == [];
      if KeyOf(page[i]) !in Keys(staged) {
        staged, added := staged + [page[i]], added + 1;
      }
    }
    assert page[..|page|] == page;
  }
}
