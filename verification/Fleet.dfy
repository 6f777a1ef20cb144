/** device_migration.py: the simulated readers, reached by serial numbers of which several may name one reader. */
module Fleet {
  import opened Text
  import opened FreePin
  import opened Readers
  import opened Migration

  /** `place` tells which reader a serial resolves to, `lists` what each reader holds. */
  datatype Fleet = Fleet(place: map<string, nat>, lists: map<nat, seq<User>>)

  predicate Knows(f: Fleet, sn: string) {
    sn in f.place && f.place[sn] in f.lists
  }

  function On(f: Fleet, sn: string): seq<User> {
    if Knows(f, sn) then f.lists[f.place[sn]] else []
  }

  function Put(f: Fleet, sn: string, users: seq<User>): Fleet {
    if Knows(f, sn) then f.(lists := f.lists[f.place[sn] := users]) else f
  }

  predicate Same(f: Fleet, a: string, b: string) {
    Knows(f, a) && Knows(f, b) && f.place[a] == f.place[b]
  }

  function Migrated(f: Fleet, src: string, tgt: string, id: string, target: Option<string>, move: bool): Fleet {
    if !Knows(f, src) || !Knows(f, tgt) then f
    else if Same(f, src, tgt) then Put(f, src, AfterSelfMigrate(On(f, src), id, target, move))
    else
      var q := AfterMigrate(Pair(On(f, src), On(f, tgt)), id, target, move);
      Put(Put(f, src, q.src), tgt, q.tgt)
  }

  function RunMigrated(f: Fleet, src: string, tgt: string, ids: seq<string>, pinMap: map<string, string>, move: bool): Fleet
    decreases |ids|
  {
    if ids == [] then f
    else
      var id := Strip(ids[0]);
      var next := if id == [] then f else Migrated(f, src, tgt, id, PinFor(pinMap, id), move);
      RunMigrated(next, src, tgt, ids[1..], pinMap, move)
  }

  datatype Op =
    | Create(sn: string, userId: string, name: string, privilege: int, password: string, card: int)
    | Delete(sn: string, pin: string, biometricsOnly: bool)
    | DeleteBatch(sn: string, pins: seq<string>, biometricsOnly: bool)
    | Migrate(src: string, tgt: string, id: string, target: Option<string>, move: bool)
    | Run(src: string, tgt: string, ids: seq<string>, pinMap: map<string, string>, move: bool)

  function Step(f: Fleet, op: Op): Fleet {
    match op
    case Create(sn, userId, name, privilege, password, card) =>
      Put(f, sn, AfterCreate(On(f, sn), userId, name, privilege, password, card))
    case Delete(sn, pin, biometricsOnly) => Put(f, sn, AfterDelete(On(f, sn), pin, biometricsOnly))
    case DeleteBatch(sn, pins, biometricsOnly) => Put(f, sn, AfterBatchDelete(On(f, sn), pins, biometricsOnly))
    case Migrate(src, tgt, id, target, move) => Migrated(f, src, tgt, id, target, move)
    case Run(src, tgt, ids, pinMap, move) => RunMigrated(f, src, tgt, ids, pinMap, move)
  }

  function After(f: Fleet, ops: seq<Op>): Fleet
    decreases |ops|
  {
    if ops == [] then f else After(Step(f, ops[0]), ops[1..])
  }

  predicate AllSound(f: Fleet) {
    forall d :: d in f.lists ==> Sound(f.lists[d])
  }

  lemma PutKeeps(f: Fleet, sn: string, users: seq<User>)
    requires AllSound(f) && Sound(users)
    ensures AllSound(Put(f, sn, users)) && Put(f, sn, users).place == f.place
  {
  }

  lemma OnIsSound(f: Fleet, sn: string)
    requires AllSound(f)
    ensures Sound(On(f, sn))
  {
  }

  lemma MigrateKeeps(f: Fleet, src: string, tgt: string, id: string, target: Option<string>, move: bool)
    requires AllSound(f)
    ensures AllSound(Migrated(f, src, tgt, id, target, move))
    ensures Migrated(f, src, tgt, id, target, move).place == f.place
  {
    hide AllSound, Sound, AfterEnrol, WantedPin, Put, On;
    OnIsSound(f, src);
    OnIsSound(f, tgt);
    var users, wanted := On(f, src), WantedPin(id, target);
    if Knows(f, src) && Knows(f, tgt) && Has(users, id) {
      var u := users[Find(users, id)];
      EnrolKeepsSound(On(f, tgt), wanted, u);
      EnrolKeepsSound(users, wanted, u);
      WithoutSound(users, id);
      WithoutSound(AfterEnrol(users, wanted, u), id);
    }
    var q, self := AfterMigrate(Pair(users, On(f, tgt)), id, target, move), AfterSelfMigrate(users, id, target, move);
    if Knows(f, src) && Knows(f, tgt) {
      assert Sound(q.src) && Sound(q.tgt) && Sound(self);
      PutKeeps(f, src, self);
      PutKeeps(f, src, q.src);
      PutKeeps(Put(f, src, q.src), tgt, q.tgt);
    }
  }

  lemma {:induction false} RunKeeps(f: Fleet, src: string, tgt: string, ids: seq<string>, pinMap: map<string, string>, move: bool)
    requires AllSound(f)
    ensures AllSound(RunMigrated(f, src, tgt, ids, pinMap, move))
    ensures RunMigrated(f, src, tgt, ids, pinMap, move).place == f.place
    decreases |ids|
  {
    hide AllSound, Migrated, Strip;
    if ids != [] {
      var id := Strip(ids[0]);
      if id == [] {
        RunKeeps(f, src, tgt, ids[1..], pinMap, move);
      } else {
        MigrateKeeps(f, src, tgt, id, PinFor(pinMap, id), move);
        RunKeeps(Migrated(f, src, tgt, id, PinFor(pinMap, id), move), src, tgt, ids[1..], pinMap, move);
      }
    }
  }

  lemma StepKeeps(f: Fleet, op: Op)
    requires AllSound(f)
    ensures AllSound(Step(f, op)) && Step(f, op).place == f.place
  {
    hide AllSound, Sound, Migrated, RunMigrated, Put, On, AfterCreate, AfterDelete, AfterBatchDelete;
    match op
    case Create(sn, userId, name, privilege, password, card) =>
      OnIsSound(f, sn);
      CreateKeepsSound(On(f, sn), userId, name, privilege, password, card);
      PutKeeps(f, sn, AfterCreate(On(f, sn), userId, name, privilege, password, card));
    case Delete(sn, pin, biometricsOnly) =>
      OnIsSound(f, sn);
      DeleteKeepsSound(On(f, sn), pin, biometricsOnly);
      PutKeeps(f, sn, AfterDelete(On(f, sn), pin, biometricsOnly));
    case DeleteBatch(sn, pins, biometricsOnly) =>
      OnIsSound(f, sn);
      BatchDeleteKeepsSound(On(f, sn), pins, biometricsOnly);
      PutKeeps(f, sn, AfterBatchDelete(On(f, sn), pins, biometricsOnly));
    case Migrate(src, tgt, id, target, move) => MigrateKeeps(f, src, tgt, id, target, move);
    case Run(src, tgt, ids, pinMap, move) => RunKeeps(f, src, tgt, ids, pinMap, move);
  }

  /** Whatever is done to the readers, through whatever serials, every PIN and every UID stays single on each. */
  lemma {:induction false} FleetKeeps(f: Fleet, ops: seq<Op>)
    requires AllSound(f)
    ensures AllSound(After(f, ops)) && After(f, ops).place == f.place
    decreases |ops|
  {
    hide AllSound, Step;
    if ops != [] {
      StepKeeps(f, ops[0]);
      FleetKeeps(Step(f, ops[0]), ops[1..]);
    }
  }

  /** In so many words: on every reader, after every run, any two records differ in PIN and in UID. */
  lemma RecordsStayDistinct(f: Fleet, ops: seq<Op>)
    requires forall d, i, j :: d in f.lists && 0 <= i < j < |f.lists[d]| ==>
      f.lists[d][i].userId != f.lists[d][j].userId && f.lists[d][i].uid != f.lists[d][j].uid
    ensures var g := After(f, ops);
      forall d, i, j :: d in g.lists && 0 <= i < j < |g.lists[d]| ==>
        g.lists[d][i].userId != g.lists[d][j].userId && g.lists[d][i].uid != g.lists[d][j].uid
  {
    hide After;
    FleetKeeps(f, ops);
  }

  // ---------------------------------------------------------------------------
  // The module's functions over its readers
  // ---------------------------------------------------------------------------

  datatype MigrationResult = Enrolled(pin: string, fingers: nat) | NoReader | NoUser

  function MigrationOutcome(f: Fleet, src: string, tgt: string, id: string, target: Option<string>): MigrationResult {
    if !Knows(f, src) || !Knows(f, tgt) then NoReader
    else if !Has(On(f, src), id) then NoUser
    else
      var u := On(f, src)[Find(On(f, src), id)];
      Enrolled(EnrolledPin(On(f, tgt), WantedPin(id, target), u.name), |u.fingers|)
  }

  function RunOutcomes(f: Fleet, src: string, tgt: string, ids: seq<string>, pinMap: map<string, string>, move: bool): seq<MigrationResult>
    decreases |ids|
  {
    if ids == [] then []
    else
      var id, target := Strip(ids[0]), PinFor(pinMap, Strip(ids[0]));
      if id == [] then RunOutcomes(f, src, tgt, ids[1..], pinMap, move)
      else
        [MigrationOutcome(f, src, tgt, id, target)]
        + RunOutcomes(Migrated(f, src, tgt, id, target, move), src, tgt, ids[1..], pinMap, move)
  }

  /** Between two readers a batch is the run on their pair of lists, and no third reader is touched. */
  lemma {:induction false} RunIsPairRun(f: Fleet, src: string, tgt: string, ids: seq<string>, pinMap: map<string, string>, move: bool)
    requires Knows(f, src) && Knows(f, tgt) && !Same(f, src, tgt)
    ensures var g := RunMigrated(f, src, tgt, ids, pinMap, move);
      && Pair(On(g, src), On(g, tgt)) == AfterRun(Pair(On(f, src), On(f, tgt)), ids, pinMap, move)
      && g.place == f.place && g.lists.Keys == f.lists.Keys
      && forall d :: d in f.lists && d != f.place[src] && d != f.place[tgt] ==> g.lists[d] == f.lists[d]
    decreases |ids|
  {
    hide Strip, AfterMigrate;
    if ids != [] {
      var id := Strip(ids[0]);
      if id == [] {
        RunIsPairRun(f, src, tgt, ids[1..], pinMap, move);
      } else {
        RunIsPairRun(Migrated(f, src, tgt, id, PinFor(pinMap, id), move), src, tgt, ids[1..], pinMap, move);
      }
    }
  }

  /** The batch and its results, at the turn of each request. */
  lemma OutcomesStep(f: Fleet, src: string, tgt: string, ids: seq<string>, pinMap: map<string, string>, move: bool)
    requires ids != [] && Strip(ids[0]) != []
    ensures var id := Strip(ids[0]);
      RunOutcomes(f, src, tgt, ids, pinMap, move)
      == [MigrationOutcome(f, src, tgt, id, PinFor(pinMap, id))]
         + RunOutcomes(Migrated(f, src, tgt, id, PinFor(pinMap, id), move), src, tgt, ids[1..], pinMap, move)
  {
    hide Strip, Migrated, MigrationOutcome, PinFor;
  }

  lemma MigratedPair(f: Fleet, src: string, tgt: string, id: string, target: Option<string>, move: bool)
    requires Knows(f, src) && Knows(f, tgt) && !Same(f, src, tgt)
    ensures var g := Migrated(f, src, tgt, id, target, move);
      && Pair(On(g, src), On(g, tgt)) == AfterMigrate(Pair(On(f, src), On(f, tgt)), id, target, move)
      && Knows(g, src) && Knows(g, tgt) && !Same(g, src, tgt)
  {
    hide AfterMigrate;
  }

  /**
   * Under the same conditions the results say so: for each request in turn the PIN of the map, or its own
   * where the map gives none, with the number of fingers; nobody found for someone who is not on the
   * source, or whom the batch has moved already.
   */
  lemma {:induction false} OutcomesTellThePins(f: Fleet, src: string, tgt: string, ids: seq<string>, pinMap: map<string, string>, move: bool, k: nat)
    requires Knows(f, src) && Knows(f, tgt) && !Same(f, src, tgt) && k < |Stripped(ids)|
    requires AllFit(Pair(On(f, src), On(f, tgt)), ids, pinMap)
    ensures var results, id, users := RunOutcomes(f, src, tgt, ids, pinMap, move), Stripped(ids)[k], On(f, src);
      && |results| == |Stripped(ids)|
      && results[k] ==
         if !Has(users, id) || (move && id in Stripped(ids)[..k]) then NoUser
         else Enrolled(if id in pinMap && pinMap[id] != [] then Strip(pinMap[id]) else id, |users[Find(users, id)].fingers|)
    decreases |ids|
  {
    hide Strip, AfterMigrate, PinFor, Fits, Migrated, Asked, AllFit, RunOutcomes, MigrationOutcome, Knows, Same, On, Find;
    var first := Strip(ids[0]);
    if first == [] {
      BlankRequest(f, src, tgt, ids, pinMap, move);
      OutcomesTellThePins(f, src, tgt, ids[1..], pinMap, move, k);
    } else {
      var p, rest := Pair(On(f, src), On(f, tgt)), Stripped(ids[1..]);
      var g := Migrated(f, src, tgt, first, PinFor(pinMap, first), move);
      assert Stripped(ids) == [first] + rest;
      FirstFits(p, ids, pinMap);
      OutcomesStep(f, src, tgt, ids, pinMap, move);
      MigratedPair(f, src, tgt, first, PinFor(pinMap, first), move);
      FirstOutcome(f, src, tgt, first, pinMap, move);
      if Has(p.src, first) {
        RestFits(p, ids, pinMap, move);
      } else {
        NobodyToMove(p, first, PinFor(pinMap, first), move);
        LessFits(p, ids, pinMap);
      }
      OutcomesCount(g, src, tgt, ids[1..], pinMap, move);
      if k > 0 {
        OutcomesTellThePins(g, src, tgt, ids[1..], pinMap, move, k - 1);
        assert Stripped(ids)[..k] == [first] + rest[..k - 1];
        LaterRequest(p, first, PinFor(pinMap, first), move, rest[k - 1]);
      }
    }
  }

  lemma BlankRequest(f: Fleet, src: string, tgt: string, ids: seq<string>, pinMap: map<string, string>, move: bool)
    requires ids != [] && Strip(ids[0]) == []
    ensures RunOutcomes(f, src, tgt, ids, pinMap, move) == RunOutcomes(f, src, tgt, ids[1..], pinMap, move)
    ensures Stripped(ids) == Stripped(ids[1..])
    ensures AllFit(Pair(On(f, src), On(f, tgt)), ids, pinMap) ==> AllFit(Pair(On(f, src), On(f, tgt)), ids[1..], pinMap)
  {
    hide Strip, Migrated, MigrationOutcome, PinFor, Fits, Asked;
  }

  lemma FirstFits(p: Pair, ids: seq<string>, pinMap: map<string, string>)
    requires ids != [] && Strip(ids[0]) != [] && AllFit(p, ids, pinMap)
    ensures Fits(p, Strip(ids[0]), pinMap)
  {
    hide Strip, Fits, Asked;
    assert Strip(ids[0]) in Stripped(ids);
  }

  /** Who is found at a later request: the same record, unless this request has moved it. */
  lemma LaterRequest(p: Pair, first: string, target: Option<string>, move: bool, id: string)
    ensures var q := AfterMigrate(p, first, target, move);
      && Has(q.src, id) == (Has(p.src, id) && !(move && id == first))
      && (Has(q.src, id) ==> q.src[Find(q.src, id)] == p.src[Find(p.src, id)])
  {
    hide AfterMigrate;
    if id != first {
      SourceStands(p, first, target, move, id);
    } else {
      RequestedAgain(p, id, target, move);
    }
  }

  lemma LessFits(p: Pair, ids: seq<string>, pinMap: map<string, string>)
    requires ids != [] && AllFit(p, ids, pinMap)
    ensures AllFit(p, ids[1..], pinMap)
  {
    hide Strip, Fits, Asked;
    assert forall x :: x in Stripped(ids[1..]) ==> x in Stripped(ids);
  }

  lemma {:induction false} OutcomesCount(f: Fleet, src: string, tgt: string, ids: seq<string>, pinMap: map<string, string>, move: bool)
    ensures |RunOutcomes(f, src, tgt, ids, pinMap, move)| == |Stripped(ids)|
    decreases |ids|
  {
    hide Strip, Migrated, MigrationOutcome, PinFor;
    if ids != [] {
      var id := Strip(ids[0]);
      OutcomesCount(f, src, tgt, ids[1..], pinMap, move);
      OutcomesCount(Migrated(f, src, tgt, id, PinFor(pinMap, id), move), src, tgt, ids[1..], pinMap, move);
    }
  }

  lemma RequestedAgain(p: Pair, id: string, target: Option<string>, move: bool)
    ensures var q := AfterMigrate(p, id, target, move);
      q.src == if move then Without(p.src, id) else p.src
    ensures move ==> !Has(AfterMigrate(p, id, target, move).src, id)
  {
    hide AfterEnrol, WantedPin;
    WithoutMembers(p.src, id);
    if !Has(p.src, id) {
      WithoutAbsent(p.src, id);
    }
  }

  lemma FirstOutcome(f: Fleet, src: string, tgt: string, id: string, pinMap: map<string, string>, move: bool)
    requires Knows(f, src) && Knows(f, tgt) && Fits(Pair(On(f, src), On(f, tgt)), id, pinMap)
    ensures var users := On(f, src);
      MigrationOutcome(f, src, tgt, id, PinFor(pinMap, id)) ==
      if !Has(users, id) then NoUser
      else Enrolled(if id in pinMap && pinMap[id] != [] then Strip(pinMap[id]) else id, |users[Find(users, id)].fingers|)
  {
    hide Strip, PinFor, WantedPin, EnrolledPin, AfterEnrol;
    var users := On(f, src);
    if Has(users, id) {
      AskedIsWanted(pinMap, id);
      OpenMeansEnrolled(On(f, tgt), Asked(pinMap, id), users[Find(users, id)]);
    }
  }

  datatype DeleteResult = DeleteResult(ok: bool, deleted: bool)

  /** The PIN decision and the write on the target's list. */
  method Enrol(tgt: seq<User>, wanted: string, u: User) returns (after: seq<User>, pin: string)
    ensures after == AfterEnrol(tgt, wanted, u) && pin == EnrolledPin(tgt, wanted, u.name)
  {
    hide FreePinFor, NextUid;
    pin := wanted;
    var at := Find(tgt, pin);
    if at < |tgt| && tgt[at].name != u.name {
      pin := FindFreePin(pin, Pins(tgt));
      at := |tgt|;
    }
    if at < |tgt| {
      after := tgt[at := WithProfile(tgt[at], ProfileOf(u))];
    } else {
      after := tgt + [u.(uid := NextUid(tgt), userId := pin)];
    }
  }

  /** Writing the target and then pruning the source, whether or not they are one reader. */
  lemma MigratedBySteps(f: Fleet, src: string, tgt: string, id: string, target: Option<string>, move: bool)
    requires Knows(f, src) && Knows(f, tgt)
    ensures Migrated(f, src, tgt, id, target, move) ==
      if !Has(On(f, src), id) then f
      else
        var u := On(f, src)[Find(On(f, src), id)];
        var wrote := Put(f, tgt, AfterEnrol(On(f, tgt), WantedPin(id, target), u));
        if move then Put(wrote, src, Without(On(wrote, src), id)) else wrote
  {
    hide AfterEnrol, WantedPin, Without;
    assert Put(f, src, On(f, src)) == f && Put(f, tgt, On(f, tgt)) == f;
    if Has(On(f, src), id) {
      var u := On(f, src)[Find(On(f, src), id)];
      var after := AfterEnrol(On(f, tgt), WantedPin(id, target), u);
      if !Same(f, src, tgt) {
        PutElsewhere(f, src, tgt, Without(On(f, src), id), after);
      } else {
        PutPut(f, src, after, Without(after, id));
      }
    }
  }

  lemma PutElsewhere(f: Fleet, a: string, b: string, users: seq<User>, others: seq<User>)
    requires Knows(f, a) && Knows(f, b) && !Same(f, a, b)
    ensures On(Put(f, a, users), b) == On(f, b) && On(Put(f, b, others), a) == On(f, a)
    ensures Put(Put(f, a, users), b, others) == Put(Put(f, b, others), a, users)
  {
  }

  class Simulator {
    var fleet: Fleet

    constructor (fleet: Fleet)
      ensures this.fleet == fleet
    {
      this.fleet := fleet;
    }

    method CreateUser(sn: string, userId: string, name: string, privilege: int, password: string, card: int)
      returns (r: Option<CreateResult>)
      modifies this
      ensures fleet == Step(old(fleet), Create(sn, userId, name, privilege, password, card))
      ensures r == if Knows(old(fleet), sn) then Some(CreateOutcome(On(old(fleet), sn), userId, name)) else None
    {
      if !Knows(fleet, sn) {
        return None;
      }
      var users := On(fleet, sn);
      var outcome := CreateOutcome(users, userId, name);
      if outcome.Created? {
        var privileges := if privilege == 14 then 14 else 0;
        fleet := Put(fleet, sn, users + [User(NextUid(users), outcome.pin, Strip(name), privileges, password, "1", card, [])]);
      } else {
        assert Put(fleet, sn, users) == fleet;
      }
      r := Some(outcome);
    }

    method DeleteUser(sn: string, pin: string, biometricsOnly: bool) returns (r: DeleteResult)
      modifies this
      ensures fleet == Step(old(fleet), Delete(sn, pin, biometricsOnly))
      ensures r == DeleteResult(Knows(old(fleet), sn), Knows(old(fleet), sn) && Has(On(old(fleet), sn), pin))
    {
      if !Knows(fleet, sn) {
        return DeleteResult(false, false);
      }
      var users := On(fleet, sn);
      var at := Find(users, pin);
      if at == |users| {
        assert Put(fleet, sn, users) == fleet;
        return DeleteResult(true, false);
      }
      if biometricsOnly {
        fleet := Put(fleet, sn, users[at := users[at].(fingers := [])]);
      } else {
        fleet := Put(fleet, sn, Without(users, pin));
      }
      r := DeleteResult(true, true);
    }

    method DeleteUsers(sn: string, pins: seq<string>, biometricsOnly: bool) returns (deleted: nat)
      modifies this
      ensures fleet == Step(old(fleet), DeleteBatch(sn, pins, biometricsOnly))
      ensures Knows(old(fleet), sn) ==> deleted == DeletedCount(On(old(fleet), sn), pins, biometricsOnly)
      ensures Sound(On(old(fleet), sn)) && !biometricsOnly ==>
        && On(fleet, sn) == WithoutAll(On(old(fleet), sn), pins)
        && deleted == |On(old(fleet), sn)| - |On(fleet, sn)|
    {
      hide Sound, Has, AfterDelete;
      deleted := 0;
      var i := 0;
      while i < |pins|
        invariant 0 <= i <= |pins| && fleet.place == old(fleet).place && Knows(fleet, sn) == Knows(old(fleet), sn)
        invariant Knows(fleet, sn) ==>
          deleted + DeletedCount(On(fleet, sn), pins[i..], biometricsOnly) == DeletedCount(On(old(fleet), sn), pins, biometricsOnly)
        invariant !Knows(fleet, sn) ==> deleted == 0
        invariant Put(fleet, sn, AfterBatchDelete(On(fleet, sn), pins[i..], biometricsOnly))
               == Put(old(fleet), sn, AfterBatchDelete(On(old(fleet), sn), pins, biometricsOnly))
      {
        assert pins[i..][0] == pins[i] && pins[i..][1..] == pins[i + 1..];
        ghost var before := fleet;
        var r := DeleteUser(sn, pins[i], biometricsOnly);
        PutPut(before, sn, AfterDelete(On(before, sn), pins[i], biometricsOnly),
          AfterBatchDelete(On(fleet, sn), pins[i + 1..], biometricsOnly));
        if r.deleted {
          deleted := deleted + 1;
        }
        i := i + 1;
      }
      assert Put(fleet, sn, On(fleet, sn)) == fleet;
      if Sound(On(old(fleet), sn)) && !biometricsOnly {
        BatchDeleteIsExact(On(old(fleet), sn), pins);
      }
    }

    method MigrateUser(src: string, tgt: string, id: string, target: Option<string>, move: bool) returns (r: MigrationResult)
      modifies this
      ensures fleet == Step(old(fleet), Migrate(src, tgt, id, target, move))
      ensures r == MigrationOutcome(old(fleet), src, tgt, id, target)
    {
      hide Sound, FreePinFor, Without, WantedPin, EnrolledPin, AfterEnrol, Put;
      if !Knows(fleet, src) || !Knows(fleet, tgt) {
        return NoReader;
      }
      MigratedBySteps(fleet, src, tgt, id, target, move);
      var users := On(fleet, src);
      var found := Find(users, id);
      if found == |users| {
        return NoUser;
      }
      var u := users[found];
      var others, pin := Enrol(On(fleet, tgt), WantedPin(id, target), u);
      fleet := Put(fleet, tgt, others);
      if move {
        fleet := Put(fleet, src, Without(On(fleet, src), id));
      }
      r := Enrolled(pin, |u.fingers|);
    }

    method RunMigration(src: string, tgt: string, ids: seq<string>, pinMap: map<string, string>, move: bool)
      returns (results: seq<MigrationResult>)
      modifies this
      ensures fleet == Step(old(fleet), Run(src, tgt, ids, pinMap, move))
      ensures results == RunOutcomes(old(fleet), src, tgt, ids, pinMap, move)
    {
      hide Step, RunMigrated, RunOutcomes, MigrationOutcome, Strip;
      results := [];
      NoRequests(fleet, src, tgt, pinMap, move);
      var i := 0;
      while i < |ids|
        invariant 0 <= i <= |ids|
        invariant RunMigrated(fleet, src, tgt, ids[i..], pinMap, move) == RunMigrated(old(fleet), src, tgt, ids, pinMap, move)
        invariant results + RunOutcomes(fleet, src, tgt, ids[i..], pinMap, move)
               == RunOutcomes(old(fleet), src, tgt, ids, pinMap, move)
      {
        RequestStep(fleet, src, tgt, ids, i, pinMap, move);
        var id := Strip(ids[i]);
        if id != [] {
          var r := MigrateUser(src, tgt, id, PinFor(pinMap, id), move);
          ghost var rest := RunOutcomes(fleet, src, tgt, ids[i + 1..], pinMap, move);
          assert (results + [r]) + rest == results + ([r] + rest);
          results := results + [r];
        }
        i := i + 1;
      }
      NoRequests(fleet, src, tgt, pinMap, move);
      assert ids[|ids|..] == [] && results + [] == results;
      RunIsStep(old(fleet), src, tgt, ids, pinMap, move);
    }

    method ResolveTargetPin(tgt: string, preferred: string, name: string) returns (r: Resolution)
      ensures r == Resolve(On(fleet, tgt), preferred, name)
    {
      hide FreePinFor, Lower, Strip, PyInt;
      var pin := Strip(preferred);
      var users := On(fleet, tgt);
      var at := Find(users, pin);
      if at == |users| {
        return Resolution(pin, false);
      }
      if name != [] && Lower(Strip(users[at].name)) == Lower(Strip(name)) {
        return Resolution(pin, false);
      }
      var free := FindFreePin(pin, Pins(users));
      r := Resolution(free, true);
    }
  }

  lemma NoRequests(f: Fleet, src: string, tgt: string, pinMap: map<string, string>, move: bool)
    ensures RunMigrated(f, src, tgt, [], pinMap, move) == f && RunOutcomes(f, src, tgt, [], pinMap, move) == []
  {
  }

  lemma RunIsStep(f: Fleet, src: string, tgt: string, ids: seq<string>, pinMap: map<string, string>, move: bool)
    ensures Step(f, Run(src, tgt, ids, pinMap, move)) == RunMigrated(f, src, tgt, ids, pinMap, move)
  {
    hide RunMigrated;
  }

  lemma RequestStep(f: Fleet, src: string, tgt: string, ids: seq<string>, i: nat, pinMap: map<string, string>, move: bool)
    requires i < |ids|
    ensures var id := Strip(ids[i]);
      var next := Step(f, Migrate(src, tgt, id, PinFor(pinMap, id), move));
      if id == [] then
        && RunMigrated(f, src, tgt, ids[i..], pinMap, move) == RunMigrated(f, src, tgt, ids[i + 1..], pinMap, move)
        && RunOutcomes(f, src, tgt, ids[i..], pinMap, move) == RunOutcomes(f, src, tgt, ids[i + 1..], pinMap, move)
      else
        && RunMigrated(f, src, tgt, ids[i..], pinMap, move) == RunMigrated(next, src, tgt, ids[i + 1..], pinMap, move)
        && RunOutcomes(f, src, tgt, ids[i..], pinMap, move)
           == [MigrationOutcome(f, src, tgt, id, PinFor(pinMap, id))] + RunOutcomes(next, src, tgt, ids[i + 1..], pinMap, move)
  {
    hide Migrated, MigrationOutcome, Strip, PinFor;
    assert ids[i..][0] == ids[i] && ids[i..][1..] == ids[i + 1..];
  }

  lemma PutPut(f: Fleet, sn: string, a: seq<User>, b: seq<User>)
    ensures Put(Put(f, sn, a), sn, b) == Put(f, sn, b)
    ensures Knows(f, sn) ==> On(Put(f, sn, a), sn) == a
    ensures Knows(Put(f, sn, a), sn) == Knows(f, sn)
  {
  }
}
