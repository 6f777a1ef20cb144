/** employee_service.py: which readers an employee may use, kept in step with the simulated readers. */
module Access {
  import opened Text
  import opened FreePin
  import opened Readers
  import opened Migration
  import opened Fleet

  datatype Entry = Entry(deviceSn: string, pin: string, primary: bool, cleared: bool)

  datatype Employee = Employee(id: string, code: string, name: string, branch: int, access: seq<Entry>, terminated: bool)

  /** The employee file and the readers. */
  datatype Office = Office(employees: seq<Employee>, fleet: Fleet)

  /** The readers of each branch, and all registered serials. */
  datatype Site = Site(branches: map<int, seq<string>>, registered: seq<string>)

  // ---------------------------------------------------------------------------
  // Access lists
  // ---------------------------------------------------------------------------

  /** At most one entry per reader. */
  predicate OneEach(access: seq<Entry>) {
    forall i, j :: 0 <= i < j < |access| ==> access[i].deviceSn != access[j].deviceSn
  }

  /** Index of the first entry for a reader, or the length of the list. */
  function EntryAt(access: seq<Entry>, sn: string): (i: nat)
    ensures i <= |access|
    ensures i < |access| ==> access[i].deviceSn == sn
    ensures forall j :: 0 <= j < i ==> access[j].deviceSn != sn
  {
    if access == [] || access[0].deviceSn == sn then 0 else 1 + EntryAt(access[1..], sn)
  }

  function Dropped(access: seq<Entry>, sn: string): seq<Entry> {
    if access == [] then []
    else if access[0].deviceSn == sn then Dropped(access[1..], sn)
    else [access[0]] + Dropped(access[1..], sn)
  }

  /** The entry for `sn` gets the PIN, or a new one is appended. */
  function Recorded(access: seq<Entry>, sn: string, pin: string, primary: bool): seq<Entry> {
    var i := EntryAt(access, sn);
    if i < |access| then access[i := access[i].(pin := pin, primary := primary || access[i].primary)]
    else access + [Entry(sn, pin, primary, false)]
  }

  function Cleared(access: seq<Entry>, sn: string): seq<Entry> {
    if access == [] then []
    else [if access[0].deviceSn == sn then access[0].(cleared := true) else access[0]] + Cleared(access[1..], sn)
  }

  lemma {:induction false} DroppedSpec(access: seq<Entry>, sn: string)
    ensures forall e :: e in Dropped(access, sn) <==> e in access && e.deviceSn != sn
    ensures OneEach(access) ==> OneEach(Dropped(access, sn))
  {
    if access != [] {
      DroppedSpec(access[1..], sn);
      assert access == [access[0]] + access[1..];
      if OneEach(access) {
        OneEachTail(access);
        if access[0].deviceSn != sn {
          OneEachCons(access[0], Dropped(access[1..], sn));
        }
      }
    }
  }

  lemma OneEachTail(access: seq<Entry>)
    requires access != [] && OneEach(access)
    ensures OneEach(access[1..]) && forall e :: e in access[1..] ==> e.deviceSn != access[0].deviceSn
  {
    var tail := access[1..];
    assert forall j :: 0 <= j < |tail| ==> tail[j] == access[j + 1];
  }

  lemma OneEachCons(e: Entry, tail: seq<Entry>)
    requires OneEach(tail) && forall d :: d in tail ==> d.deviceSn != e.deviceSn
    ensures OneEach([e] + tail)
  {
    var access := [e] + tail;
    forall j | 1 <= j < |access|
      ensures access[j] == tail[j - 1] && access[j] in tail
    {
    }
  }

  lemma RecordedSpec(access: seq<Entry>, sn: string, pin: string, primary: bool)
    ensures var after := Recorded(access, sn, pin, primary);
      var i := EntryAt(after, sn);
      var known := EntryAt(access, sn) < |access|;
      && i < |after| && after[i].deviceSn == sn && after[i].pin == pin && |after| == |access| + (if known then 0 else 1)
      && after[i].primary == (primary || (known && access[EntryAt(access, sn)].primary))
      && after[i].cleared == (known && access[EntryAt(access, sn)].cleared)
      && (OneEach(access) ==> OneEach(after))
      && forall k :: 0 <= k < |access| && k != i ==> after[k] == access[k]
  {
    var after, i := Recorded(access, sn, pin, primary), EntryAt(access, sn);
    var k := EntryAt(after, sn);
    assert k == i by {
      assert after[i].deviceSn == sn;
      assert forall j :: 0 <= j < i ==> after[j] == access[j];
    }
  }

  lemma {:induction false} ClearedSpec(access: seq<Entry>, sn: string)
    ensures |Cleared(access, sn)| == |access|
    ensures forall i :: 0 <= i < |access| ==>
      Cleared(access, sn)[i] == if access[i].deviceSn == sn then access[i].(cleared := true) else access[i]
    ensures OneEach(access) ==> OneEach(Cleared(access, sn))
  {
    if access != [] {
      ClearedSpec(access[1..], sn);
      if OneEach(access) {
        OneEachTail(access);
      }
    }
  }

  // ---------------------------------------------------------------------------
  // Operations
  // ---------------------------------------------------------------------------

  predicate Matches(e: Employee, id: string) {
    e.id == Strip(id) || Lower(e.code) == Lower(Strip(id))
  }

  function EmployeeAt(employees: seq<Employee>, id: string): (i: nat)
    ensures i <= |employees|
    ensures i < |employees| ==> Matches(employees[i], id)
    ensures forall j :: 0 <= j < i ==> !Matches(employees[j], id)
  {
    if employees == [] || Matches(employees[0], id) then 0 else 1 + EmployeeAt(employees[1..], id)
  }

  /** Somebody is found exactly when the stripped text is an id, or, but for case, a code; and then the first such. */
  lemma FoundExactly(employees: seq<Employee>, id: string)
    ensures EmployeeAt(employees, id) < |employees|
      <==> exists e :: e in employees && (e.id == Strip(id) || Lower(e.code) == Lower(Strip(id)))
    ensures var i := EmployeeAt(employees, id);
      && (i < |employees| ==> employees[i].id == Strip(id) || Lower(employees[i].code) == Lower(Strip(id)))
      && forall j :: 0 <= j < i ==> employees[j].id != Strip(id) && Lower(employees[j].code) != Lower(Strip(id))
  {
    hide Strip, Lower;
    var i := EmployeeAt(employees, id);
    if i < |employees| {
      assert employees[i] in employees;
    } else {
      forall e | e in employees
        ensures !Matches(e, id)
      {
        var j :| 0 <= j < |employees| && employees[j] == e;
      }
    }
  }

  /** The PIN the employee has on a reader; their id where no entry says otherwise. */
  function PinOn(e: Employee, sn: string): string {
    var i := EntryAt(e.access, sn);
    if i < |e.access| then e.access[i].pin else e.id
  }

  function WithEmployee(o: Office, i: nat, e: Employee): Office
    requires i < |o.employees|
  {
    o.(employees := o.employees[i := e])
  }

  function AccessAfter(access: seq<Entry>, src: string, tgt: string, pin: string, move: bool): seq<Entry> {
    Recorded(if move then Dropped(access, src) else access, tgt, pin, move)
  }

  /** The shared core of transfer and grant: resolve a PIN, migrate under it, and record it if that worked. */
  function Carried(o: Office, i: nat, src: string, tgt: string, move: bool): Office
    requires i < |o.employees|
  {
    var e := o.employees[i];
    var pin := PinOn(e, src);
    var target := Resolve(On(o.fleet, tgt), pin, e.name).pin;
    if !MigrationOutcome(o.fleet, src, tgt, pin, Some(target)).Enrolled? then o
    else Office(
      o.employees[i := e.(access := AccessAfter(e.access, src, tgt, target, move))],
      Migrated(o.fleet, src, tgt, pin, Some(target), move))
  }

  function Devices(site: Site, branch: int): seq<string> {
    if branch in site.branches then site.branches[branch] else []
  }

  /** Any mode but copy is a move. */
  predicate IsMove(mode: string) {
    Strip(Lower(mode)) != "copy"
  }

  function Transferred(o: Office, site: Site, id: string, toBranch: int, biometric: bool, mode: string): Office {
    var i := EmployeeAt(o.employees, id);
    if i == |o.employees| || o.employees[i].branch == toBranch || toBranch !in site.branches then o
    else
      var from, to := Devices(site, o.employees[i].branch), Devices(site, toBranch);
      var done := if biometric && from != [] && to != [] then Carried(o, i, from[0], to[0], IsMove(mode)) else o;
      WithEmployee(done, i, done.employees[i].(branch := toBranch))
  }

  /** The reader a grant is for: the one named, else the first of the branch named. */
  function GrantTarget(site: Site, branch: Option<int>, sn: string): string {
    if sn != [] then sn
    else if branch.Some? && branch.value != 0 && Devices(site, branch.value) != [] then Devices(site, branch.value)[0]
    else ""
  }

  function Granted(o: Office, site: Site, id: string, branch: Option<int>, sn: string): Office {
    var i, tgt := EmployeeAt(o.employees, id), GrantTarget(site, branch, sn);
    if i == |o.employees| || Devices(site, o.employees[i].branch) == [] || tgt == [] then o
    else Carried(o, i, Devices(site, o.employees[i].branch)[0], tgt, false)
  }

  function Revoked(o: Office, id: string, sn: string, biometricsOnly: bool): Office {
    var i := EmployeeAt(o.employees, id);
    if i == |o.employees| || !Knows(o.fleet, sn) then o
    else
      var e := o.employees[i];
      Office(
        o.employees[i := e.(access := if biometricsOnly then Cleared(e.access, sn) else Dropped(e.access, sn))],
        Put(o.fleet, sn, AfterDelete(On(o.fleet, sn), PinOn(e, sn), biometricsOnly)))
  }

  /** A reader and the PIN to delete there. */
  datatype Target = Target(sn: string, pin: string)

  function Everywhere(registered: seq<string>, pin: string): seq<Target> {
    if registered == [] then [] else [Target(registered[0], pin)] + Everywhere(registered[1..], pin)
  }

  function Listed(access: seq<Entry>): seq<Target> {
    if access == [] then [] else [Target(access[0].deviceSn, access[0].pin)] + Listed(access[1..])
  }

  function FireTargets(site: Site, e: Employee, oneDevice: bool, sn: Option<string>): seq<Target> {
    if oneDevice && sn.Some? && sn.value != [] then [Target(sn.value, PinOn(e, sn.value))]
    else if e.access != [] then Listed(e.access)
    else Everywhere(site.registered, e.id)
  }

  function Wiped(f: Fleet, targets: seq<Target>, biometricsOnly: bool): Fleet
    decreases |targets|
  {
    if targets == [] then f
    else
      var t := targets[0];
      Wiped(Put(f, t.sn, AfterDelete(On(f, t.sn), t.pin, biometricsOnly)), targets[1..], biometricsOnly)
  }

  /** What the deletions report, each at its turn: whether the reader is known, and whether somebody was found. */
  function WipeResults(f: Fleet, targets: seq<Target>, biometricsOnly: bool): seq<DeleteResult>
    decreases |targets|
  {
    if targets == [] then []
    else
      var t := targets[0];
      [DeleteResult(Knows(f, t.sn), Knows(f, t.sn) && Has(On(f, t.sn), t.pin))]
      + WipeResults(Put(f, t.sn, AfterDelete(On(f, t.sn), t.pin, biometricsOnly)), targets[1..], biometricsOnly)
  }

  /** `action` is one of "fire_all" and "delete_device"; any other behaves as a device deletion without a device. */
  datatype Action = FireAll | DeleteDevice | OtherAction

  function Left(e: Employee, action: Action, sn: Option<string>): Employee {
    if action == FireAll then e.(terminated := true, access := [])
    else if sn.Some? then e.(access := Dropped(e.access, sn.value))
    else e
  }

  function Fired(o: Office, site: Site, id: string, action: Action, sn: Option<string>, biometricsOnly: bool): Office {
    var i := EmployeeAt(o.employees, id);
    if i == |o.employees| then o
    else Office(
      o.employees[i := Left(o.employees[i], action, sn)],
      Wiped(o.fleet, FireTargets(site, o.employees[i], action == DeleteDevice, sn), biometricsOnly))
  }

  function NotMatching(employees: seq<Employee>, id: string): seq<Employee> {
    if employees == [] then []
    else if Matches(employees[0], id) then NotMatching(employees[1..], id)
    else [employees[0]] + NotMatching(employees[1..], id)
  }

  function Removed(o: Office, site: Site, id: string, wipe: bool): Office {
    if EmployeeAt(o.employees, id) == |o.employees| then o
    else Office(
      NotMatching(o.employees, id),
      if wipe then Fired(o, site, id, FireAll, None, false).fleet else o.fleet)
  }

  // ---------------------------------------------------------------------------
  // What every run keeps
  // ---------------------------------------------------------------------------

  datatype Deed =
    | Transfer(id: string, toBranch: int, biometric: bool, mode: string)
    | Grant(id: string, branch: Option<int>, sn: string)
    | Revoke(id: string, sn: string, biometricsOnly: bool)
    | Fire(id: string, action: Action, device: Option<string>, biometricsOnly: bool)
    | Remove(id: string, wipe: bool)
    | Reader(op: Op)

  function Done(o: Office, site: Site, deed: Deed): Office {
    match deed
    case Transfer(id, toBranch, biometric, mode) => Transferred(o, site, id, toBranch, biometric, mode)
    case Grant(id, branch, sn) => Granted(o, site, id, branch, sn)
    case Revoke(id, sn, biometricsOnly) => Revoked(o, id, sn, biometricsOnly)
    case Fire(id, action, device, biometricsOnly) => Fired(o, site, id, action, device, biometricsOnly)
    case Remove(id, wipe) => Removed(o, site, id, wipe)
    case Reader(op) => o.(fleet := Step(o.fleet, op))
  }

  function AfterAll(o: Office, site: Site, deeds: seq<Deed>): Office
    decreases |deeds|
  {
    if deeds == [] then o else AfterAll(Done(o, site, deeds[0]), site, deeds[1..])
  }

  /** One entry per reader for everybody, one record per PIN and per UID on every reader. */
  predicate Orderly(o: Office) {
    (forall e :: e in o.employees ==> OneEach(e.access)) && AllSound(o.fleet)
  }

  lemma AccessAfterKeeps(access: seq<Entry>, src: string, tgt: string, pin: string, move: bool)
    requires OneEach(access)
    ensures OneEach(AccessAfter(access, src, tgt, pin, move))
  {
    hide OneEach;
    DroppedSpec(access, src);
    RecordedSpec(if move then Dropped(access, src) else access, tgt, pin, move);
  }

  lemma OfficeKeeps(o: Office, i: nat, e: Employee, f: Fleet)
    requires Orderly(o) && i < |o.employees| && OneEach(e.access) && AllSound(f)
    ensures Orderly(Office(o.employees[i := e], f))
  {
    hide OneEach, AllSound;
  }

  lemma MemberIsOrderly(o: Office, i: nat)
    requires Orderly(o) && i < |o.employees|
    ensures OneEach(o.employees[i].access) && AllSound(o.fleet)
  {
  }

  lemma CarriedKeeps(o: Office, i: nat, src: string, tgt: string, move: bool)
    requires Orderly(o) && i < |o.employees|
    ensures Orderly(Carried(o, i, src, tgt, move)) && |Carried(o, i, src, tgt, move).employees| == |o.employees|
  {
    hide Orderly, OneEach, AllSound, Migrated, MigrationOutcome, Resolve, AccessAfter;
    var e := o.employees[i];
    var pin := PinOn(e, src);
    var target := Resolve(On(o.fleet, tgt), pin, e.name).pin;
    MemberIsOrderly(o, i);
    AccessAfterKeeps(e.access, src, tgt, target, move);
    MigrateKeeps(o.fleet, src, tgt, pin, Some(target), move);
    OfficeKeeps(o, i, e.(access := AccessAfter(e.access, src, tgt, target, move)), Migrated(o.fleet, src, tgt, pin, Some(target), move));
  }

  lemma {:induction false} WipedKeeps(f: Fleet, targets: seq<Target>, biometricsOnly: bool)
    requires AllSound(f)
    ensures AllSound(Wiped(f, targets, biometricsOnly))
    decreases |targets|
  {
    hide AllSound, AfterDelete;
    if targets != [] {
      var t := targets[0];
      StepKeeps(f, Delete(t.sn, t.pin, biometricsOnly));
      WipedKeeps(Put(f, t.sn, AfterDelete(On(f, t.sn), t.pin, biometricsOnly)), targets[1..], biometricsOnly);
    }
  }

  lemma TransferKeeps(o: Office, site: Site, id: string, toBranch: int, biometric: bool, mode: string)
    requires Orderly(o)
    ensures Orderly(Transferred(o, site, id, toBranch, biometric, mode))
  {
    hide Orderly, OneEach, AllSound, Carried, IsMove;
    var i := EmployeeAt(o.employees, id);
    if i < |o.employees| && o.employees[i].branch != toBranch && toBranch in site.branches {
      var from, to := Devices(site, o.employees[i].branch), Devices(site, toBranch);
      var carry := biometric && from != [] && to != [];
      if carry {
        CarriedKeeps(o, i, from[0], to[0], IsMove(mode));
      }
      var done := if carry then Carried(o, i, from[0], to[0], IsMove(mode)) else o;
      MemberIsOrderly(done, i);
      OfficeKeeps(done, i, done.employees[i].(branch := toBranch), done.fleet);
    }
  }

  lemma RevokeKeeps(o: Office, id: string, sn: string, biometricsOnly: bool)
    requires Orderly(o)
    ensures Orderly(Revoked(o, id, sn, biometricsOnly))
  {
    hide Orderly, OneEach, AllSound, Put, AfterDelete;
    var i := EmployeeAt(o.employees, id);
    if i < |o.employees| {
      var e := o.employees[i];
      MemberIsOrderly(o, i);
      DroppedSpec(e.access, sn);
      ClearedSpec(e.access, sn);
      StepKeeps(o.fleet, Delete(sn, PinOn(e, sn), biometricsOnly));
      OfficeKeeps(o, i, e.(access := if biometricsOnly then Cleared(e.access, sn) else Dropped(e.access, sn)),
        Put(o.fleet, sn, AfterDelete(On(o.fleet, sn), PinOn(e, sn), biometricsOnly)));
    }
  }

  lemma FireKeeps(o: Office, site: Site, id: string, action: Action, sn: Option<string>, biometricsOnly: bool)
    requires Orderly(o)
    ensures Orderly(Fired(o, site, id, action, sn, biometricsOnly))
  {
    hide Orderly, AllSound, Wiped, FireTargets;
    var i := EmployeeAt(o.employees, id);
    if i < |o.employees| {
      var e := o.employees[i];
      MemberIsOrderly(o, i);
      if sn.Some? {
        DroppedSpec(e.access, sn.value);
      }
      var targets := FireTargets(site, e, action == DeleteDevice, sn);
      WipedKeeps(o.fleet, targets, biometricsOnly);
      OfficeKeeps(o, i, Left(e, action, sn), Wiped(o.fleet, targets, biometricsOnly));
    }
  }

  lemma {:induction false} NotMatchingMembers(employees: seq<Employee>, id: string)
    ensures forall e :: e in NotMatching(employees, id) <==> e in employees && !Matches(e, id)
  {
    hide Matches;
    if employees != [] {
      NotMatchingMembers(employees[1..], id);
      assert employees == [employees[0]] + employees[1..];
    }
  }

  lemma RemoveKeeps(o: Office, site: Site, id: string, wipe: bool)
    requires Orderly(o)
    ensures Orderly(Removed(o, site, id, wipe))
  {
    hide OneEach, AllSound, Fired;
    FireKeeps(o, site, id, FireAll, None, false);
    NotMatchingMembers(o.employees, id);
  }

  lemma DoneKeeps(o: Office, site: Site, deed: Deed)
    requires Orderly(o)
    ensures Orderly(Done(o, site, deed))
  {
    hide OneEach, AllSound, Transferred, Carried, Revoked, Fired, Removed, Step, GrantTarget, EmployeeAt, Matches;
    match deed
    case Transfer(id, toBranch, biometric, mode) => TransferKeeps(o, site, id, toBranch, biometric, mode);
    case Grant(id, branch, sn) =>
      var i, devices := EmployeeAt(o.employees, id), GrantTarget(site, branch, sn);
      if i < |o.employees| && Devices(site, o.employees[i].branch) != [] {
        CarriedKeeps(o, i, Devices(site, o.employees[i].branch)[0], devices, false);
      }
    case Revoke(id, sn, biometricsOnly) => RevokeKeeps(o, id, sn, biometricsOnly);
    case Fire(id, action, device, biometricsOnly) => FireKeeps(o, site, id, action, device, biometricsOnly);
    case Remove(id, wipe) => RemoveKeeps(o, site, id, wipe);
    case Reader(op) => StepKeeps(o.fleet, op);
  }

  /** Every run of transfers, grants, revocations, offboardings and reader operations keeps the office orderly. */
  lemma {:induction false} OfficeStaysOrderly(o: Office, site: Site, deeds: seq<Deed>)
    requires Orderly(o)
    ensures Orderly(AfterAll(o, site, deeds))
    decreases |deeds|
  {
    hide Orderly, Done;
    if deeds != [] {
      DoneKeeps(o, site, deeds[0]);
      OfficeStaysOrderly(Done(o, site, deeds[0]), site, deeds[1..]);
    }
  }

  /** In so many words: nobody ever has two entries for one reader. */
  lemma EntriesStaySingle(o: Office, site: Site, deeds: seq<Deed>)
    requires AllSound(o.fleet)
    requires forall e, i, j :: e in o.employees && 0 <= i < j < |e.access| ==> e.access[i].deviceSn != e.access[j].deviceSn
    ensures forall e, i, j :: e in AfterAll(o, site, deeds).employees && 0 <= i < j < |e.access| ==>
      e.access[i].deviceSn != e.access[j].deviceSn
  {
    hide AfterAll, AllSound;
    OfficeStaysOrderly(o, site, deeds);
  }

  // ---------------------------------------------------------------------------
  // Offboarding
  // ---------------------------------------------------------------------------

  /** The PINs that a list of targets names on reader `d`, through whatever serial. */
  function PinsAt(f: Fleet, targets: seq<Target>, d: nat): seq<string> {
    if targets == [] then []
    else if targets[0].sn in f.place && f.place[targets[0].sn] == d then [targets[0].pin] + PinsAt(f, targets[1..], d)
    else PinsAt(f, targets[1..], d)
  }

  lemma {:induction false} PinsAtPlace(f: Fleet, g: Fleet, targets: seq<Target>, d: nat)
    requires f.place == g.place
    ensures PinsAt(f, targets, d) == PinsAt(g, targets, d)
  {
    if targets != [] {
      PinsAtPlace(f, g, targets[1..], d);
    }
  }

  /** A full wipe leaves on every reader exactly the users whose PIN no target names there. */
  lemma {:induction false} WipedIsExact(f: Fleet, targets: seq<Target>, d: nat)
    requires d in f.lists
    ensures var g := Wiped(f, targets, false);
      && g.place == f.place && d in g.lists
      && g.lists[d] == WithoutAll(f.lists[d], PinsAt(f, targets, d))
    decreases |targets|
  {
    if targets == [] {
      WithoutNone(f.lists[d]);
    } else {
      var t := targets[0];
      var next := Put(f, t.sn, AfterDelete(On(f, t.sn), t.pin, false));
      WipedIsExact(next, targets[1..], d);
      PinsAtPlace(f, next, targets[1..], d);
      if t.sn in f.place && f.place[t.sn] == d {
        DeleteIsWithout(f.lists[d], t.pin);
        WithoutMore(f.lists[d], [t.pin] + PinsAt(f, targets[1..], d));
      }
    }
  }

  lemma DeleteIsWithout(users: seq<User>, pin: string)
    ensures AfterDelete(users, pin, false) == Without(users, pin)
  {
    if !Has(users, pin) {
      WithoutAbsent(users, pin);
    }
  }

  lemma {:induction false} TargetedPin(f: Fleet, targets: seq<Target>, t: Target)
    requires t in targets && t.sn in f.place
    ensures t.pin in PinsAt(f, targets, f.place[t.sn])
  {
    if targets[0] != t {
      assert t in targets[1..];
      TargetedPin(f, targets[1..], t);
    }
  }

  /**
   * Firing removes the employee's record from every reader listed, or from every registered reader where
   * none is listed, through every serial, and no user under a PIN that is not listed for the reader.
   */
  lemma FireAllIsExact(o: Office, site: Site, id: string, sn: Option<string>)
    requires EmployeeAt(o.employees, id) < |o.employees|
    ensures var e, g := o.employees[EmployeeAt(o.employees, id)], Fired(o, site, id, FireAll, sn, false).fleet;
      var targets := if e.access != [] then Listed(e.access) else Everywhere(site.registered, e.id);
      && (forall t :: t in targets ==> !Has(On(g, t.sn), t.pin))
      && (forall x :: x in e.access ==> !Has(On(g, x.deviceSn), x.pin))
      && (forall d :: d in o.fleet.lists ==>
            d in g.lists && g.lists[d] == WithoutAll(o.fleet.lists[d], PinsAt(o.fleet, targets, d)))
  {
    hide WithoutAll, PinsAt, Listed, Everywhere, Wiped, Matches;
    var e, g := o.employees[EmployeeAt(o.employees, id)], Fired(o, site, id, FireAll, sn, false).fleet;
    var targets := if e.access != [] then Listed(e.access) else Everywhere(site.registered, e.id);
    forall d | d in o.fleet.lists
      ensures d in g.lists && g.place == o.fleet.place
      ensures g.lists[d] == WithoutAll(o.fleet.lists[d], PinsAt(o.fleet, targets, d))
    {
      WipedIsExact(o.fleet, targets, d);
    }
    WipedKnows(o.fleet, targets);
    forall t | t in targets
      ensures !Has(On(g, t.sn), t.pin)
    {
      if Knows(g, t.sn) {
        var d := g.place[t.sn];
        TargetedPin(o.fleet, targets, t);
        WithoutAllMembers(o.fleet.lists[d], PinsAt(o.fleet, targets, d));
        HasIff(g.lists[d], t.pin);
      }
    }
    ListedTargets(e.access);
  }

  lemma {:induction false} WipedKnows(f: Fleet, targets: seq<Target>)
    ensures Wiped(f, targets, false).place == f.place && Wiped(f, targets, false).lists.Keys == f.lists.Keys
    decreases |targets|
  {
    if targets != [] {
      var t := targets[0];
      WipedKnows(Put(f, t.sn, AfterDelete(On(f, t.sn), t.pin, false)), targets[1..]);
    }
  }

  /** By fields: a user is gone exactly when an entry names their reader and PIN, or where there is no entry their PIN is the id and their reader registered. */
  predicate Fires(f: Fleet, site: Site, e: Employee, d: nat, pin: string) {
    if e.access != [] then exists x :: x in e.access && x.deviceSn in f.place && f.place[x.deviceSn] == d && x.pin == pin
    else pin == e.id && exists sn :: sn in site.registered && sn in f.place && f.place[sn] == d
  }

  lemma {:induction false} PinsAtExactly(f: Fleet, targets: seq<Target>, d: nat, pin: string)
    ensures pin in PinsAt(f, targets, d) <==> exists t :: t in targets && t.sn in f.place && f.place[t.sn] == d && t.pin == pin
  {
    if targets != [] {
      PinsAtExactly(f, targets[1..], d, pin);
      assert targets == [targets[0]] + targets[1..];
    }
  }

  lemma {:induction false} EverywhereExactly(registered: seq<string>, pin: string)
    ensures forall t :: t in Everywhere(registered, pin) <==> t.pin == pin && t.sn in registered
  {
    if registered != [] {
      EverywhereExactly(registered[1..], pin);
      assert registered == [registered[0]] + registered[1..];
    }
  }

  lemma {:induction false} ListedExactly(access: seq<Entry>)
    ensures forall t :: t in Listed(access) <==> exists x :: x in access && t == Target(x.deviceSn, x.pin)
  {
    if access != [] {
      ListedExactly(access[1..]);
      assert access == [access[0]] + access[1..];
    }
  }

  lemma FiresExactly(f: Fleet, site: Site, e: Employee, d: nat, pin: string)
    ensures Fires(f, site, e, d, pin) <==> pin in PinsAt(f, if e.access != [] then Listed(e.access) else Everywhere(site.registered, e.id), d)
  {
    hide PinsAt, Listed, Everywhere;
    var targets := if e.access != [] then Listed(e.access) else Everywhere(site.registered, e.id);
    PinsAtExactly(f, targets, d, pin);
    ListedExactly(e.access);
    EverywhereExactly(site.registered, e.id);
    if Fires(f, site, e, d, pin) {
      if e.access != [] {
        var x :| x in e.access && x.deviceSn in f.place && f.place[x.deviceSn] == d && x.pin == pin;
        assert Target(x.deviceSn, x.pin) in targets;
      } else {
        var sn :| sn in site.registered && sn in f.place && f.place[sn] == d;
        assert Target(sn, pin) in targets;
      }
    }
  }

  /** Firing ends the employment, empties the access list, and takes exactly those users off the readers. */
  lemma FireByFields(o: Office, site: Site, id: string, sn: Option<string>)
    requires EmployeeAt(o.employees, id) < |o.employees|
    ensures var i, after := EmployeeAt(o.employees, id), Fired(o, site, id, FireAll, sn, false);
      var e := o.employees[i];
      && |after.employees| == |o.employees|
      && after.employees[i].terminated && after.employees[i].access == []
      && (forall d :: d in o.fleet.lists ==>
            d in after.fleet.lists
            && forall u :: u in after.fleet.lists[d] <==> u in o.fleet.lists[d] && !Fires(o.fleet, site, e, d, u.userId))
  {
    hide WithoutAll, PinsAt, Listed, Everywhere, Wiped, Matches, Fires;
    var e, after := o.employees[EmployeeAt(o.employees, id)], Fired(o, site, id, FireAll, sn, false);
    var targets := if e.access != [] then Listed(e.access) else Everywhere(site.registered, e.id);
    FireAllIsExact(o, site, id, sn);
    forall d | d in o.fleet.lists
      ensures d in after.fleet.lists
      ensures forall u :: u in after.fleet.lists[d] <==> u in o.fleet.lists[d] && !Fires(o.fleet, site, e, d, u.userId)
    {
      WithoutAllMembers(o.fleet.lists[d], PinsAt(o.fleet, targets, d));
      forall u: User
        ensures Fires(o.fleet, site, e, d, u.userId) <==> u.userId in PinsAt(o.fleet, targets, d)
      {
        FiresExactly(o.fleet, site, e, d, u.userId);
      }
    }
  }

  /** No other offboarding ends the employment. */
  lemma OnlyFiringTerminates(o: Office, site: Site, id: string, action: Action, sn: Option<string>, biometricsOnly: bool)
    requires EmployeeAt(o.employees, id) < |o.employees|
    ensures var i, after := EmployeeAt(o.employees, id), Fired(o, site, id, action, sn, biometricsOnly);
      && |after.employees| == |o.employees|
      && after.employees[i].terminated == (action == FireAll || o.employees[i].terminated)
      && after.employees[i].branch == o.employees[i].branch
  {
    hide Wiped, FireTargets, Matches, Dropped;
  }

  /**
   * Removing someone from the directory removes every employee the id matches, but wipes only the
   * readers listed for the first of them.
   */
  lemma RemoveIsExact(o: Office, site: Site, id: string)
    requires EmployeeAt(o.employees, id) < |o.employees|
    ensures var e, after := o.employees[EmployeeAt(o.employees, id)], Removed(o, site, id, true);
      var targets := if e.access != [] then Listed(e.access) else Everywhere(site.registered, e.id);
      && (forall x :: x in after.employees <==> x in o.employees && !Matches(x, id))
      && (forall d :: d in o.fleet.lists ==>
            d in after.fleet.lists
            && after.fleet.lists[d] == WithoutAll(o.fleet.lists[d], PinsAt(o.fleet, targets, d)))
  {
    hide WithoutAll, PinsAt, Listed, Everywhere, Fired, Matches;
    FireAllIsExact(o, site, id, None);
    NotMatchingMembers(o.employees, id);
  }

  /** The readers that firing an employee wipes. */
  function AllTargets(site: Site, e: Employee): seq<Target> {
    if e.access != [] then Listed(e.access) else Everywhere(site.registered, e.id)
  }

  /** Nobody is under the PIN there, or it is among those that the given targets name for the reader. */
  predicate Covered(f: Fleet, targets: seq<Target>, t: Target) {
    Knows(f, t.sn) && Has(On(f, t.sn), t.pin) ==> t.pin in PinsAt(f, targets, f.place[t.sn])
  }

  /** After permanent deletion a PIN is off a reader exactly when it was before, or the first match's targets cover it. */
  lemma RemovedTargetExactly(o: Office, site: Site, id: string, t: Target)
    requires EmployeeAt(o.employees, id) < |o.employees|
    ensures var first, after := o.employees[EmployeeAt(o.employees, id)], Removed(o, site, id, true);
      !Has(On(after.fleet, t.sn), t.pin) <==> Covered(o.fleet, AllTargets(site, first), t)
  {
    hide WithoutAll, PinsAt, Listed, Everywhere, Wiped, Matches;
    var first, after := o.employees[EmployeeAt(o.employees, id)], Removed(o, site, id, true);
    var targets := AllTargets(site, first);
    RemoveIsExact(o, site, id);
    WipedKnows(o.fleet, targets);
    if Knows(o.fleet, t.sn) {
      var d := o.fleet.place[t.sn];
      WithoutAllMembers(o.fleet.lists[d], PinsAt(o.fleet, targets, d));
      HasIff(o.fleet.lists[d], t.pin);
      HasIff(after.fleet.lists[d], t.pin);
    }
  }

  /**
   * Permanent deletion takes every employee it removes off all their readers exactly when the targets of
   * the first one cover those of all the others.
   */
  lemma RemovedAreOffTheReadersExactly(o: Office, site: Site, id: string)
    requires EmployeeAt(o.employees, id) < |o.employees|
    ensures var first, after := o.employees[EmployeeAt(o.employees, id)], Removed(o, site, id, true);
      (forall x, t :: x in o.employees && Matches(x, id) && t in AllTargets(site, x) ==> !Has(On(after.fleet, t.sn), t.pin))
      <==> (forall x, t :: x in o.employees && Matches(x, id) && t in AllTargets(site, x)
              ==> Covered(o.fleet, AllTargets(site, first), t))
  {
    hide Removed, Matches, AllTargets, Covered, Has;
    var first, after := o.employees[EmployeeAt(o.employees, id)], Removed(o, site, id, true);
    forall t: Target
      ensures !Has(On(after.fleet, t.sn), t.pin) <==> Covered(o.fleet, AllTargets(site, first), t)
    {
      RemovedTargetExactly(o, site, id, t);
    }
  }

  /** The failing side is reached: Ben's code is Ann's id, and both leave the directory, but Ben stays on the reader. */
  lemma NamesakeStaysOnTheReader(a: User, b: User)
    requires a.userId == "1" && b.userId == "2"
    ensures var ann := Employee("1", "A", "Ann", 1, [Entry("S", "1", true, false)], false);
      var ben := Employee("2", "1", "Ben", 1, [Entry("S", "2", true, false)], false);
      var o := Office([ann, ben], Fleet(map["S" := 0], map[0 := [a, b]]));
      var after := Removed(o, Site(map[], ["S"]), "1", true);
      after.employees == [] && On(after.fleet, "S") == [b]
  {
    var ann := Employee("1", "A", "Ann", 1, [Entry("S", "1", true, false)], false);
    var ben := Employee("2", "1", "Ben", 1, [Entry("S", "2", true, false)], false);
    var o := Office([ann, ben], Fleet(map["S" := 0], map[0 := [a, b]]));
    BothMatch(ann, ben);
    hide Matches;
    assert EmployeeAt(o.employees, "1") == 0;
    assert [ann, ben][1..] == [ben] && NotMatching([ben], "1") == [];
    var f, targets := o.fleet, [Target("S", "1")];
    assert Listed(ann.access) == targets;
    DeleteIsWithout([a, b], "1");
    assert [a, b][1..] == [b] && Without([b], "1") == [b];
    assert Wiped(f, targets, false) == Put(f, "S", [b]);
  }

  lemma BothMatch(ann: Employee, ben: Employee)
    requires ann.id == "1" && ben.code == "1"
    ensures Matches(ann, "1") && Matches(ben, "1")
  {
    StripTrims("1");
  }

  /** The one offboarding that is about a single reader: a device deletion that names a device. */
  predicate NamesDevice(action: Action, sn: Option<string>) {
    action == DeleteDevice && sn.Some? && sn.value != []
  }

  /** Every other offboarding, whatever it is called and whatever device it names, wipes what firing wipes. */
  lemma UnnamedDeviceWipesAll(o: Office, site: Site, id: string, action: Action, sn: Option<string>, biometricsOnly: bool)
    requires !NamesDevice(action, sn)
    ensures Fired(o, site, id, action, sn, biometricsOnly).fleet == Fired(o, site, id, FireAll, None, biometricsOnly).fleet
  {
    hide Wiped, Listed, Everywhere, Matches;
  }

  /**
   * An entry of a wiped reader stays in the access list exactly when the offboarding is no firing, is
   * not about a single reader, and some entry is for another reader than the one it names.
   */
  lemma WipedEntryStaysExactly(site: Site, e: Employee, action: Action, sn: Option<string>)
    ensures (exists x :: x in Left(e, action, sn).access
                && Target(x.deviceSn, x.pin) in FireTargets(site, e, action == DeleteDevice, sn))
       <==> (action != FireAll && !NamesDevice(action, sn) && exists x :: x in e.access && sn != Some(x.deviceSn))
  {
    var left := Left(e, action, sn).access;
    if sn.Some? {
      DroppedSpec(e.access, sn.value);
    }
    if action != FireAll && !NamesDevice(action, sn) {
      ListedTargets(e.access);
      if x :| x in e.access && sn != Some(x.deviceSn) {
        assert x in left;
      }
    }
  }

  lemma {:induction false} ListedTargets(access: seq<Entry>)
    ensures forall x :: x in access ==> Target(x.deviceSn, x.pin) in Listed(access)
  {
    if access != [] {
      ListedTargets(access[1..]);
      assert access == [access[0]] + access[1..];
    }
  }

  // ---------------------------------------------------------------------------
  // What the access entry says
  // ---------------------------------------------------------------------------

  /**
   * A transfer or grant that worked, other than a move from a reader to itself, records the resolved
   * PIN, and that PIN names the migrated record exactly when it was free, was mapped, or its occupant's
   * name is spelled as on the source.
   */
  lemma RecordedPinIsEnrolled(o: Office, i: nat, src: string, tgt: string, move: bool)
    requires i < |o.employees| && Knows(o.fleet, src) && Knows(o.fleet, tgt) && !(move && Same(o.fleet, src, tgt))
    requires var pin := PinOn(o.employees[i], src); Has(On(o.fleet, src), pin) && Strip(pin) != []
    ensures var e, done := o.employees[i], Carried(o, i, src, tgt, move);
      var pin, users, others, access := PinOn(e, src), On(o.fleet, src), On(o.fleet, tgt), done.employees[i].access;
      var r, k, u := Resolve(others, pin, e.name), EntryAt(access, tgt), users[Find(users, pin)];
      && k < |access| && access[k].pin == r.pin
      && (Holds(On(done.fleet, tgt), access[k].pin, ProfileOf(u))
          <==> (!Has(others, Strip(pin)) || r.mapped || others[Find(others, Strip(pin))].name == u.name))
  {
    hide Resolve, Strip, AfterEnrol, ProfileOf, WantedPin, EnrolledPin, Recorded, Holds;
    var e := o.employees[i];
    var pin, users, others := PinOn(e, src), On(o.fleet, src), On(o.fleet, tgt);
    var r := Resolve(others, pin, e.name);
    RecordedSpec(if move then Dropped(e.access, src) else e.access, tgt, r.pin, move);
    ResolvedPinHoldsTheProfile(others, pin, pin, e.name, users[Find(users, pin)]);
  }

  /** The failing side is reached by a name in another case: the PIN recorded for Bob is bob's. */
  lemma CaseGivesAwayThePin(card1: int, card2: int)
    requires card1 != card2
    ensures var source, occupant := User(1, "5", "Bob", 0, "", "1", card1, []), User(1, "5", "bob", 0, "", "1", card2, []);
      var bob := Employee("5", "B", "Bob", 1, [Entry("S", "5", true, false)], false);
      var o := Office([bob], Fleet(map["S" := 0, "T" := 1], map[0 := [source], 1 := [occupant]]));
      var done := Carried(o, 0, "S", "T", false);
      && done.employees[0].access == [Entry("S", "5", true, false), Entry("T", "5", false, false)]
      && Has(On(done.fleet, "T"), "5") && On(done.fleet, "T")[Find(On(done.fleet, "T"), "5")] == occupant
  {
    var source, occupant := User(1, "5", "Bob", 0, "", "1", card1, []), User(1, "5", "bob", 0, "", "1", card2, []);
    var bob := Employee("5", "B", "Bob", 1, [Entry("S", "5", true, false)], false);
    var o := Office([bob], Fleet(map["S" := 0, "T" := 1], map[0 := [source], 1 := [occupant]]));
    assert On(o.fleet, "S") == [source] && On(o.fleet, "T") == [occupant];
    assert EntryAt(bob.access, "S") == 0 && PinOn(bob, "S") == "5";
    BobAsBob(source, occupant);
    hide Strip, Lower, Resolve, AfterEnrol, FreePinFor;
    RecordedPinIsEnrolled(o, 0, "S", "T", false);
    OccupantStays([occupant], "5", "5", "Bob", source);
    NotYetListed(bob.access);
  }

  lemma BobAsBob(source: User, occupant: User)
    requires source.userId == occupant.userId == "5" && source.name == "Bob" && occupant.name == "bob"
    ensures Strip("5") == "5" && Find([source], "5") == Find([occupant], "5") == 0
    ensures Resolve([occupant], "5", "Bob") == Resolution("5", false)
  {
    StripTrims("5");
    StripTrims("Bob");
    StripTrims("bob");
    assert Lower("Bob") == "bob" == Lower("bob");
  }

  lemma NotYetListed(access: seq<Entry>)
    requires access == [Entry("S", "5", true, false)]
    ensures Recorded(access, "T", "5", false) == [Entry("S", "5", true, false), Entry("T", "5", false, false)]
  {
    assert "S"[0] != "T"[0];
    assert EntryAt(access[1..], "T") == 0;
    assert EntryAt(access, "T") == 1;
  }

  /**
   * A transfer between two serials of one reader keeps the employee's record under the PIN recorded
   * exactly when the directory's name for them does not match the reader's; the access entry is written
   * all the same.
   */
  lemma AliasTransferLosesExactly(o: Office, i: nat, src: string, tgt: string)
    requires i < |o.employees| && Same(o.fleet, src, tgt)
    requires var pin := PinOn(o.employees[i], src); Has(On(o.fleet, src), pin) && pin != [] && Strip(pin) == pin
    ensures var e, done := o.employees[i], Carried(o, i, src, tgt, true);
      var users, access := On(o.fleet, src), done.employees[i].access;
      var u, k := users[Find(users, PinOn(e, src))], EntryAt(access, tgt);
      && k < |access|
      && (Holds(On(done.fleet, tgt), access[k].pin, ProfileOf(u))
          <==> !(e.name != [] && Lower(Strip(u.name)) == Lower(Strip(e.name))))
  {
    hide Resolve, Strip, Lower, AfterSelfMigrate, EnrolledPin, WantedPin, Recorded, Holds;
    var e := o.employees[i];
    var pin, users := PinOn(e, src), On(o.fleet, src);
    var r := Resolve(users, pin, e.name);
    RecordedSpec(Dropped(e.access, src), tgt, r.pin, true);
    ResolvedSelfMoveLosesExactly(users, pin, e.name);
  }

  /**
   * Besides the entry for the target, a carried employee keeps every entry, except that a move drops
   * those of the source serial.
   */
  lemma AccessAfterSpec(access: seq<Entry>, src: string, tgt: string, pin: string, move: bool)
    ensures var after := AccessAfter(access, src, tgt, pin, move);
      && (forall e: Entry :: e.deviceSn != tgt ==> (e in after <==> e in access && !(move && e.deviceSn == src)))
      && EntryAt(after, tgt) < |after| && after[EntryAt(after, tgt)].pin == pin
      && (move ==> after[EntryAt(after, tgt)].primary)
  {
    var kept := if move then Dropped(access, src) else access;
    var after := Recorded(kept, tgt, pin, move);
    DroppedSpec(access, src);
    RecordedSpec(kept, tgt, pin, move);
    forall e: Entry | e.deviceSn != tgt
      ensures e in after <==> e in kept
    {
      RecordedOthers(kept, tgt, pin, move, e);
    }
  }

  lemma RecordedOthers(access: seq<Entry>, sn: string, pin: string, primary: bool, e: Entry)
    requires e.deviceSn != sn
    ensures e in Recorded(access, sn, pin, primary) <==> e in access
  {
    var after := Recorded(access, sn, pin, primary);
    if e in access {
      var k :| 0 <= k < |access| && access[k] == e;
      assert after[k] == e;
    }
  }

  /** The employee a deed is about; nobody else's file entry is touched by it. */
  lemma OthersUntouched(o: Office, site: Site, deed: Deed, id: string)
    requires !deed.Remove? && !deed.Reader? && deed.id == id
    ensures var after, i := Done(o, site, deed).employees, EmployeeAt(o.employees, id);
      && |after| == |o.employees|
      && (forall j :: 0 <= j < |after| && j != i ==> after[j] == o.employees[j])
      && (i < |after| ==>
            after[i].id == o.employees[i].id && after[i].code == o.employees[i].code && after[i].name == o.employees[i].name)
  {
    hide Matches, MigrationOutcome, Migrated, Resolve, AccessAfter, Wiped, FireTargets, GrantTarget, IsMove, Put, Cleared, Dropped;
  }

  predicate Accepted(o: Office, site: Site, id: string, toBranch: int) {
    var i := EmployeeAt(o.employees, id);
    i < |o.employees| && o.employees[i].branch != toBranch && toBranch in site.branches
  }

  /** Biometrics were asked for, both branches have a known reader, and the employee is on that of the old one. */
  predicate ReadersTakePart(o: Office, site: Site, id: string, toBranch: int, biometric: bool)
    requires Accepted(o, site, id, toBranch)
  {
    var e := o.employees[EmployeeAt(o.employees, id)];
    var from, to := Devices(site, e.branch), Devices(site, toBranch);
    && biometric && from != [] && to != [] && Knows(o.fleet, from[0]) && Knows(o.fleet, to[0])
    && Has(On(o.fleet, from[0]), PinOn(e, from[0]))
  }

  lemma CarriedOnlyIf(o: Office, i: nat, src: string, tgt: string, move: bool)
    requires i < |o.employees|
    ensures var e := o.employees[i];
      var pin := PinOn(e, src);
      var target := Resolve(On(o.fleet, tgt), pin, e.name).pin;
      if Knows(o.fleet, src) && Knows(o.fleet, tgt) && Has(On(o.fleet, src), pin)
      then Carried(o, i, src, tgt, move).employees == o.employees[i := e.(access := AccessAfter(e.access, src, tgt, target, move))]
      else Carried(o, i, src, tgt, move) == o
  {
    hide Resolve, AccessAfter, Migrated, EnrolledPin, WantedPin;
  }

  /**
   * An accepted transfer always moves the branch. The new branch's reader is in the access list afterwards
   * exactly when it was there before or the readers took part; when they did not, nothing else changes.
   */
  lemma TransferMovesTheBranch(o: Office, site: Site, id: string, toBranch: int, biometric: bool, mode: string)
    requires Accepted(o, site, id, toBranch)
    ensures var i, after := EmployeeAt(o.employees, id), Transferred(o, site, id, toBranch, biometric, mode);
      var e, to := o.employees[i], Devices(site, toBranch);
      && |after.employees| == |o.employees| && after.employees[i].branch == toBranch
      && (to != [] ==>
            (EntryAt(after.employees[i].access, to[0]) < |after.employees[i].access|
             <==> EntryAt(e.access, to[0]) < |e.access| || ReadersTakePart(o, site, id, toBranch, biometric)))
      && (!ReadersTakePart(o, site, id, toBranch, biometric) ==>
            after.fleet == o.fleet && after.employees[i] == e.(branch := toBranch))
  {
    hide Matches, Carried, Resolve, AccessAfter, IsMove, Has;
    var i := EmployeeAt(o.employees, id);
    var e, from, to := o.employees[i], Devices(site, o.employees[i].branch), Devices(site, toBranch);
    if from != [] && to != [] {
      var target := Resolve(On(o.fleet, to[0]), PinOn(e, from[0]), e.name).pin;
      CarriedOnlyIf(o, i, from[0], to[0], IsMove(mode));
      AccessAfterSpec(e.access, from[0], to[0], target, IsMove(mode));
    }
  }

  /**
   * When the readers take part, the entry for the new branch's reader has the PIN resolved there, and
   * that PIN names the employee's record exactly under the condition on names: for a move from a reader
   * to itself that they do not match, otherwise that the PIN was free, was mapped, or its occupant is
   * spelled as on the source.
   */
  lemma TransferredRecordExactly(o: Office, site: Site, id: string, toBranch: int, biometric: bool, mode: string)
    requires Accepted(o, site, id, toBranch) && ReadersTakePart(o, site, id, toBranch, biometric)
    requires var e := o.employees[EmployeeAt(o.employees, id)];
      var src, tgt := Devices(site, e.branch)[0], Devices(site, toBranch)[0];
      var pin := PinOn(e, src);
      Strip(pin) != [] && (IsMove(mode) && Same(o.fleet, src, tgt) ==> Strip(pin) == pin)
    ensures var i, after := EmployeeAt(o.employees, id), Transferred(o, site, id, toBranch, biometric, mode);
      var e, access := o.employees[i], after.employees[i].access;
      var src, tgt := Devices(site, e.branch)[0], Devices(site, toBranch)[0];
      var pin, users, others, k := PinOn(e, src), On(o.fleet, src), On(o.fleet, tgt), EntryAt(access, tgt);
      var r, u := Resolve(others, pin, e.name), users[Find(users, pin)];
      && k < |access| && access[k].pin == r.pin
      && (Holds(On(after.fleet, tgt), access[k].pin, ProfileOf(u))
          <==> if IsMove(mode) && Same(o.fleet, src, tgt)
               then !(e.name != [] && Lower(Strip(u.name)) == Lower(Strip(e.name)))
               else !Has(others, Strip(pin)) || r.mapped || others[Find(others, Strip(pin))].name == u.name)
  {
    hide Matches, Carried, Resolve, AccessAfter, Strip, Lower, Holds, IsMove;
    var i := EmployeeAt(o.employees, id);
    var e := o.employees[i];
    var src, tgt := Devices(site, e.branch)[0], Devices(site, toBranch)[0];
    CarriedOnlyIf(o, i, src, tgt, IsMove(mode));
    AccessAfterSpec(e.access, src, tgt, Resolve(On(o.fleet, tgt), PinOn(e, src), e.name).pin, IsMove(mode));
    if IsMove(mode) && Same(o.fleet, src, tgt) {
      AliasTransferLosesExactly(o, i, src, tgt);
    } else {
      RecordedPinIsEnrolled(o, i, src, tgt, IsMove(mode));
    }
  }

  /**
   * When readers take part that are two different ones, exactly the mode "copy" leaves the employee on the
   * old one and keeps its access entries; any other takes them off it.
   */
  lemma OnlyCopyLeavesTheSource(o: Office, site: Site, id: string, toBranch: int, biometric: bool, mode: string)
    requires Accepted(o, site, id, toBranch) && ReadersTakePart(o, site, id, toBranch, biometric)
    requires var e := o.employees[EmployeeAt(o.employees, id)];
      !Same(o.fleet, Devices(site, e.branch)[0], Devices(site, toBranch)[0])
    ensures var i, after := EmployeeAt(o.employees, id), Transferred(o, site, id, toBranch, biometric, mode);
      var e := o.employees[i];
      var src := Devices(site, e.branch)[0];
      && (Has(On(after.fleet, src), PinOn(e, src)) <==> Strip(Lower(mode)) == "copy")
      && (forall u :: u in On(after.fleet, src) <==>
            u in On(o.fleet, src) && (Strip(Lower(mode)) == "copy" || u.userId != PinOn(e, src)))
      && (forall x: Entry :: x.deviceSn == src ==>
            (x in after.employees[i].access <==> x in e.access && Strip(Lower(mode)) == "copy"))
  {
    hide Matches, Resolve, AccessAfter, Strip, Lower, AfterEnrol, WantedPin, EnrolledPin;
    var i := EmployeeAt(o.employees, id);
    var e := o.employees[i];
    var src, tgt := Devices(site, e.branch)[0], Devices(site, toBranch)[0];
    CarriedSource(o, i, src, tgt, IsMove(mode));
    hide Carried;
  }

  /** What a carry does on the source reader, and to the entries of other readers than the target's. */
  lemma CarriedSource(o: Office, i: nat, src: string, tgt: string, move: bool)
    requires i < |o.employees| && Knows(o.fleet, src) && Knows(o.fleet, tgt) && !Same(o.fleet, src, tgt)
    requires Has(On(o.fleet, src), PinOn(o.employees[i], src))
    ensures var e, done := o.employees[i], Carried(o, i, src, tgt, move);
      && |done.employees| == |o.employees|
      && On(done.fleet, src) == (if move then Without(On(o.fleet, src), PinOn(e, src)) else On(o.fleet, src))
      && (Has(On(done.fleet, src), PinOn(e, src)) <==> !move)
      && (forall u :: u in On(done.fleet, src) <==> u in On(o.fleet, src) && (!move || u.userId != PinOn(e, src)))
      && (forall x: Entry :: x.deviceSn != tgt ==>
            (x in done.employees[i].access <==> x in e.access && !(move && x.deviceSn == src)))
  {
    hide Resolve, AccessAfter, AfterEnrol, WantedPin, EnrolledPin;
    var e := o.employees[i];
    var pin := PinOn(e, src);
    var target := Resolve(On(o.fleet, tgt), pin, e.name).pin;
    CarriedOnlyIf(o, i, src, tgt, move);
    AccessAfterSpec(e.access, src, tgt, target, move);
    MigratedPair(o.fleet, src, tgt, pin, Some(target), move);
    WithoutMembers(On(o.fleet, src), pin);
  }

  /** A grant leaves the home reader's list, where it is not the target's reader, and every entry for other readers. */
  lemma GrantLeavesHome(o: Office, site: Site, id: string, branch: Option<int>, sn: string)
    requires var i := EmployeeAt(o.employees, id); i < |o.employees| && Devices(site, o.employees[i].branch) != []
    requires GrantTarget(site, branch, sn) != []
    ensures var i, after, tgt := EmployeeAt(o.employees, id), Granted(o, site, id, branch, sn), GrantTarget(site, branch, sn);
      var e := o.employees[i];
      var home := Devices(site, e.branch)[0];
      && (!Same(o.fleet, home, tgt) ==> On(after.fleet, home) == On(o.fleet, home))
      && |after.employees| == |o.employees|
      && (forall x: Entry :: x.deviceSn != tgt ==> (x in after.employees[i].access <==> x in e.access))
  {
    hide Matches, GrantTarget, Carried;
    var i, tgt := EmployeeAt(o.employees, id), GrantTarget(site, branch, sn);
    var home := Devices(site, o.employees[i].branch)[0];
    CarriedElsewhere(o, i, home, tgt);
  }

  /**
   * A grant that works, to the reader named or else to the first of the branch named, gives the
   * employee's entry for that reader the PIN resolved there.
   */
  lemma GrantGivesTheEntry(o: Office, site: Site, id: string, branch: Option<int>, sn: string)
    requires var i := EmployeeAt(o.employees, id); i < |o.employees| && Devices(site, o.employees[i].branch) != []
    ensures var i, after := EmployeeAt(o.employees, id), Granted(o, site, id, branch, sn);
      var e := o.employees[i];
      var home := Devices(site, e.branch)[0];
      var named := branch.Some? && branch.value != 0 && branch.value in site.branches && site.branches[branch.value] != [];
      if sn == [] && (!named || site.branches[branch.value][0] == []) then after == o
      else
        var tgt := if sn != [] then sn else site.branches[branch.value][0];
        if Knows(o.fleet, home) && Knows(o.fleet, tgt) && Has(On(o.fleet, home), PinOn(e, home))
        then
          && |after.employees| == |o.employees|
          && var access := after.employees[i].access;
             && EntryAt(access, tgt) < |access|
             && access[EntryAt(access, tgt)].pin == Resolve(On(o.fleet, tgt), PinOn(e, home), e.name).pin
        else after == o
  {
    hide Matches, Carried, Resolve, AccessAfter, Has;
    var i, tgt := EmployeeAt(o.employees, id), GrantTarget(site, branch, sn);
    var e := o.employees[i];
    var home := Devices(site, e.branch)[0];
    CarriedOnlyIf(o, i, home, tgt, false);
    AccessAfterSpec(e.access, home, tgt, Resolve(On(o.fleet, tgt), PinOn(e, home), e.name).pin, false);
  }

  lemma CarriedElsewhere(o: Office, i: nat, src: string, tgt: string)
    requires i < |o.employees|
    ensures var e, done := o.employees[i], Carried(o, i, src, tgt, false);
      && |done.employees| == |o.employees|
      && (!Same(o.fleet, src, tgt) ==> On(done.fleet, src) == On(o.fleet, src))
      && (forall x: Entry :: x.deviceSn != tgt ==> (x in done.employees[i].access <==> x in e.access))
  {
    hide Resolve, AccessAfter, AfterEnrol, WantedPin, EnrolledPin, Carried, Has;
    var e := o.employees[i];
    CarriedOnlyIf(o, i, src, tgt, false);
    AccessAfterSpec(e.access, src, tgt, Resolve(On(o.fleet, tgt), PinOn(e, src), e.name).pin, false);
    if Knows(o.fleet, src) && Knows(o.fleet, tgt) && Has(On(o.fleet, src), PinOn(e, src)) && !Same(o.fleet, src, tgt) {
      CarriedSource(o, i, src, tgt, false);
    }
  }

  /**
   * A device deletion that names a known reader leaves nobody there under the PIN of the employee's entry
   * for it, or under their id where there is none, every other user, and every other reader.
   */
  lemma DeviceDeletionIsExact(o: Office, site: Site, id: string, sn: string)
    requires EmployeeAt(o.employees, id) < |o.employees| && sn != [] && Knows(o.fleet, sn)
    ensures var e, after := o.employees[EmployeeAt(o.employees, id)], Fired(o, site, id, DeleteDevice, Some(sn), false);
      && (forall u :: u in On(after.fleet, sn) <==>
            u in On(o.fleet, sn)
            && u.userId != (if EntryAt(e.access, sn) < |e.access| then e.access[EntryAt(e.access, sn)].pin else e.id))
      && (forall d :: d in o.fleet.lists && d != o.fleet.place[sn] ==> d in after.fleet.lists && after.fleet.lists[d] == o.fleet.lists[d])
      && (forall x :: x in after.employees[EmployeeAt(o.employees, id)].access <==> x in e.access && x.deviceSn != sn)
  {
    hide Matches, Without, AfterDelete;
    var e := o.employees[EmployeeAt(o.employees, id)];
    var users, pin := On(o.fleet, sn), PinOn(e, sn);
    DroppedSpec(e.access, sn);
    DeleteIsWithout(users, pin);
    WithoutMembers(users, pin);
    var targets := FireTargets(site, e, true, Some(sn));
    assert targets == [Target(sn, pin)] && targets[1..] == [];
    assert Wiped(o.fleet, targets, false) == Put(o.fleet, sn, AfterDelete(users, pin, false));
  }

  /** The failing side is reached: nobody is on the old reader, and the branch moves with no entry for the new one. */
  lemma BranchMovesAlone(name: string)
    ensures var e := Employee("9", "E9", name, 1, [], false);
      var o := Office([e], Fleet(map["S" := 0, "T" := 1], map[0 := [], 1 := []]));
      var site := Site(map[1 := ["S"], 2 := ["T"]], []);
      Accepted(o, site, "9", 2)
      && Transferred(o, site, "9", 2, true, "move") == o.(employees := [e.(branch := 2)])
  {
    hide Lower, IsMove, Strip;
    var e := Employee("9", "E9", name, 1, [], false);
    var o := Office([e], Fleet(map["S" := 0, "T" := 1], map[0 := [], 1 := []]));
    var site := Site(map[1 := ["S"], 2 := ["T"]], []);
    NineIsTrimmed();
    assert EmployeeAt([e], "9") == 0;
    CarriedOnlyIf(o, 0, "S", "T", IsMove("move"));
    assert On(o.fleet, "S") == [];
    assert [e][0 := e.(branch := 2)] == [e.(branch := 2)];
  }

  lemma NineIsTrimmed()
    ensures Strip("9") == "9"
  {
    StripTrims("9");
  }

  /** A full revocation leaves nobody under the employee's PIN there, every other user, and no entry for the reader. */
  lemma RevokeIsExact(o: Office, id: string, sn: string)
    requires EmployeeAt(o.employees, id) < |o.employees| && Knows(o.fleet, sn)
    ensures var i, after := EmployeeAt(o.employees, id), Revoked(o, id, sn, false);
      var e := o.employees[i];
      && |after.employees| == |o.employees|
      && (forall x :: x in after.employees[i].access <==> x in e.access && x.deviceSn != sn)
      && !Has(On(after.fleet, sn), PinOn(e, sn))
      && (forall u :: u in On(after.fleet, sn) <==> u in On(o.fleet, sn) && u.userId != PinOn(e, sn))
  {
    hide Matches, Without;
    var e := o.employees[EmployeeAt(o.employees, id)];
    DroppedSpec(e.access, sn);
    DeleteIsWithout(On(o.fleet, sn), PinOn(e, sn));
    WithoutMembers(On(o.fleet, sn), PinOn(e, sn));
  }

  // ---------------------------------------------------------------------------
  // The service
  // ---------------------------------------------------------------------------

  class EmployeeService {
    var employees: seq<Employee>
    const simulator: Simulator
    const site: Site

    constructor (employees: seq<Employee>, simulator: Simulator, site: Site)
      ensures this.employees == employees && this.simulator == simulator && this.site == site
    {
      this.employees, this.simulator, this.site := employees, simulator, site;
    }

    function State(): Office
      reads this, simulator
    {
      Office(employees, simulator.fleet)
    }

    /** Resolve a PIN on the target, migrate, and edit the access list. */
    method Carry(i: nat, src: string, tgt: string, move: bool) returns (ok: bool)
      requires i < |employees|
      modifies this, simulator
      ensures State() == Carried(old(State()), i, src, tgt, move)
      ensures |employees| == |old(employees)|
      ensures ok == (Knows(old(simulator.fleet), src) && Knows(old(simulator.fleet), tgt)
                     && Has(On(old(simulator.fleet), src), PinOn(old(employees[i]), src)))
    {
      hide Resolve, Migrated, EnrolledPin, WantedPin;
      var e := employees[i];
      var pin := PinOn(e, src);
      var resolution := simulator.ResolveTargetPin(tgt, pin, e.name);
      var result := simulator.MigrateUser(src, tgt, pin, Some(resolution.pin), move);
      ok := result.Enrolled?;
      if ok {
        var access := e.access;
        if move {
          access := Dropped(access, src);
        }
        var k := EntryAt(access, tgt);
        if k < |access| {
          access := access[k := access[k].(pin := resolution.pin, primary := move || access[k].primary)];
        } else {
          access := access + [Entry(tgt, resolution.pin, move, false)];
        }
        employees := employees[i := e.(access := access)];
      } else {
        NotMigrated(old(simulator.fleet), src, tgt, pin, Some(resolution.pin), move);
      }
    }

    method TransferEmployee(id: string, toBranch: int, biometric: bool, mode: string) returns (ok: bool)
      modifies this, simulator
      ensures State() == Transferred(old(State()), site, id, toBranch, biometric, mode)
      ensures ok == (var i := EmployeeAt(old(employees), id);
        i < |old(employees)| && old(employees)[i].branch != toBranch && toBranch in site.branches)
    {
      hide Carried, Matches, Strip, Lower;
      var i := EmployeeAt(employees, id);
      if i == |employees| || employees[i].branch == toBranch || toBranch !in site.branches {
        return false;
      }
      var from, to := Devices(site, employees[i].branch), Devices(site, toBranch);
      if biometric && from != [] && to != [] {
        var _ := Carry(i, from[0], to[0], IsMove(mode));
      }
      employees := employees[i := employees[i].(branch := toBranch)];
      ok := true;
    }

    method GrantAccess(id: string, branch: Option<int>, sn: string) returns (ok: bool)
      modifies this, simulator
      ensures State() == Granted(old(State()), site, id, branch, sn)
      ensures ok == (var i, tgt := EmployeeAt(old(employees), id), GrantTarget(site, branch, sn);
        && i < |old(employees)| && Devices(site, old(employees)[i].branch) != [] && tgt != []
        && var src := Devices(site, old(employees)[i].branch)[0];
           && Knows(old(simulator.fleet), src) && Knows(old(simulator.fleet), tgt)
           && Has(On(old(simulator.fleet), src), PinOn(old(employees)[i], src)))
    {
      hide Carried, Matches, Has;
      var i, tgt := EmployeeAt(employees, id), GrantTarget(site, branch, sn);
      if i == |employees| {
        return false;
      }
      var home := Devices(site, employees[i].branch);
      if home == [] || tgt == [] {
        return false;
      }
      ok := Carry(i, home[0], tgt, false);
    }

    method RevokeAccess(id: string, sn: string, biometricsOnly: bool) returns (ok: bool)
      modifies this, simulator
      ensures State() == Revoked(old(State()), id, sn, biometricsOnly)
      ensures ok == (EmployeeAt(old(employees), id) < |old(employees)| && Knows(old(simulator.fleet), sn))
    {
      hide Matches, AfterDelete, Has;
      var i := EmployeeAt(employees, id);
      if i == |employees| {
        return false;
      }
      var e := employees[i];
      var r := simulator.DeleteUser(sn, PinOn(e, sn), biometricsOnly);
      ok := r.ok;
      if ok {
        employees := employees[i := e.(access := if biometricsOnly then Cleared(e.access, sn) else Dropped(e.access, sn))];
      }
    }

    method Wipe(targets: seq<Target>, biometricsOnly: bool) returns (results: seq<DeleteResult>)
      modifies simulator
      ensures simulator.fleet == Wiped(old(simulator.fleet), targets, biometricsOnly)
      ensures results == WipeResults(old(simulator.fleet), targets, biometricsOnly)
    {
      hide Step, Has, Knows, On, Wiped, WipeResults;
      results := [];
      WipeNothing(simulator.fleet, biometricsOnly);
      for i := 0 to |targets|
        invariant Wiped(simulator.fleet, targets[i..], biometricsOnly) == Wiped(old(simulator.fleet), targets, biometricsOnly)
        invariant results + WipeResults(simulator.fleet, targets[i..], biometricsOnly)
               == WipeResults(old(simulator.fleet), targets, biometricsOnly)
      {
        WipeStep(simulator.fleet, targets, i, biometricsOnly);
        var r := simulator.DeleteUser(targets[i].sn, targets[i].pin, biometricsOnly);
        ghost var rest := WipeResults(simulator.fleet, targets[i + 1..], biometricsOnly);
        assert (results + [r]) + rest == results + ([r] + rest);
        results := results + [r];
      }
      WipeNothing(simulator.fleet, biometricsOnly);
      assert targets[|targets|..] == [] && results + [] == results;
    }

    method FireEmployee(id: string, action: Action, sn: Option<string>, biometricsOnly: bool)
      returns (ok: bool, results: seq<DeleteResult>)
      modifies this, simulator
      ensures State() == Fired(old(State()), site, id, action, sn, biometricsOnly)
      ensures ok == (EmployeeAt(old(employees), id) < |old(employees)|)
      ensures results == if !ok then [] else
        WipeResults(old(simulator.fleet),
          FireTargets(site, old(employees)[EmployeeAt(old(employees), id)], action == DeleteDevice, sn), biometricsOnly)
    {
      hide Matches, Wiped, WipeResults, FireTargets;
      var i := EmployeeAt(employees, id);
      if i == |employees| {
        return false, [];
      }
      var e := employees[i];
      results := Wipe(FireTargets(site, e, action == DeleteDevice, sn), biometricsOnly);
      employees := employees[i := Left(e, action, sn)];
      ok := true;
    }

    method DeletePermanently(id: string, wipe: bool) returns (ok: bool)
      modifies this, simulator
      ensures State() == Removed(old(State()), site, id, wipe)
      ensures ok == (EmployeeAt(old(employees), id) < |old(employees)|)
    {
      hide Matches, Fired;
      var loaded := employees;
      if EmployeeAt(loaded, id) == |loaded| {
        return false;
      }
      if wipe {
        var _, _ := FireEmployee(id, FireAll, None, false);
      }
      employees := NotMatching(loaded, id);
      ok := true;
    }
  }

  lemma WipeNothing(f: Fleet, biometricsOnly: bool)
    ensures Wiped(f, [], biometricsOnly) == f && WipeResults(f, [], biometricsOnly) == []
  {
  }

  lemma WipeStep(f: Fleet, targets: seq<Target>, i: nat, biometricsOnly: bool)
    requires i < |targets|
    ensures var t := targets[i];
      var next := Step(f, Delete(t.sn, t.pin, biometricsOnly));
      && Wiped(f, targets[i..], biometricsOnly) == Wiped(next, targets[i + 1..], biometricsOnly)
      && WipeResults(f, targets[i..], biometricsOnly)
         == [DeleteResult(Knows(f, t.sn), Knows(f, t.sn) && Has(On(f, t.sn), t.pin))] + WipeResults(next, targets[i + 1..], biometricsOnly)
  {
    hide AfterDelete, Put, Has;
    assert targets[i..][0] == targets[i] && targets[i..][1..] == targets[i + 1..];
  }

  lemma NotMigrated(f: Fleet, src: string, tgt: string, id: string, target: Option<string>, move: bool)
    requires !MigrationOutcome(f, src, tgt, id, target).Enrolled?
    ensures Migrated(f, src, tgt, id, target, move) == f
  {
  }
}
