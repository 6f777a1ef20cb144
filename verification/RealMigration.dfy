/** device_migration.py: moving one user between two hardware readers when any call to them may fail. */
module RealMigration {
  import opened Text
  import opened FreePin

  datatype Person = Person(pin: string, name: string, privilege: int, password: string, groupId: string, card: int)

  datatype Finger = Finger(valid: int, template: string)

  /** A reader's memory: records by UID, and fingerprints by UID and finger index. */
  datatype Memory = Memory(users: map<nat, Person>, fingers: map<nat, map<nat, Finger>>)

  datatype Listed = Listed(uid: nat, person: Person)

  /** A call works, raises with or without its effect, or returns normally with no effect. */
  datatype Fault = Works | FailsBefore | FailsAfter | Ignored

  /** The calls of one migration; each is made at most once. */
  datatype Call =
    | ConnectSource | DisableSource | ListSource | AllTemplates | OneTemplate(fid: nat)
    | ConnectTarget | DisableTarget | ListTarget
    | SetUser | SaveTemplates | RefreshTarget | ListAgain
    | DeleteUser | RefreshSource

  predicate Raises(fault: Fault) {
    fault == FailsBefore || fault == FailsAfter
  }

  predicate Acts(fault: Fault) {
    fault == Works || fault == FailsAfter
  }

  function FingersOf(m: Memory, uid: nat): map<nat, Finger> {
    if uid in m.fingers then m.fingers[uid] else map[]
  }

  function WithUser(m: Memory, uid: nat, p: Person): Memory {
    m.(users := m.users[uid := p])
  }

  function WithTemplates(m: Memory, uid: nat, p: Person, fs: map<nat, Finger>): Memory {
    Memory(m.users[uid := p], m.fingers[uid := FingersOf(m, uid) + fs])
  }

  function Erased(m: Memory, uid: nat): Memory {
    Memory(m.users - {uid}, m.fingers - {uid})
  }

  /** Nothing but one UID differs. */
  predicate SameBut(m: Memory, n: Memory, uid: nat) {
    m.users - {uid} == n.users - {uid} && m.fingers - {uid} == n.fingers - {uid}
  }

  /** A complete listing, in any order. */
  predicate Lists(listing: seq<Listed>, m: Memory) {
    && (forall e :: e in listing ==> e.uid in m.users && m.users[e.uid] == e.person)
    && (forall uid :: uid in m.users ==> Listed(uid, m.users[uid]) in listing)
  }

  class ZkDevice {
    var memory: Memory

    method GetUsers(fault: Fault) returns (r: Option<seq<Listed>>)
      ensures r.None? <==> fault != Works
      ensures r.Some? ==> Lists(r.value, memory)
    {
      if fault != Works {
        return None;
      }
      var listing: seq<Listed> := [];
      var users := memory.users;
      var rest := users.Keys;
      while rest != {}
        invariant rest <= users.Keys
        invariant forall e :: e in listing ==> e.uid in users && users[e.uid] == e.person
        invariant forall uid :: uid in users && uid !in rest ==> Listed(uid, users[uid]) in listing
        decreases |rest|
      {
        var uid :| uid in rest;
        listing := listing + [Listed(uid, users[uid])];
        rest := rest - {uid};
      }
      r := Some(listing);
    }

    method SetUser(uid: nat, p: Person, fault: Fault) returns (ok: bool)
      modifies this
      ensures ok == !Raises(fault)
      ensures memory == if Acts(fault) then WithUser(old(memory), uid, p) else old(memory)
    {
      if Acts(fault) {
        memory := WithUser(memory, uid, p);
      }
      ok := !Raises(fault);
    }

    /** The call carries the user record beside the fingerprints. */
    method SaveUserTemplate(uid: nat, p: Person, fs: map<nat, Finger>, fault: Fault) returns (ok: bool)
      modifies this
      ensures ok == !Raises(fault)
      ensures memory == if Acts(fault) then WithTemplates(old(memory), uid, p, fs) else old(memory)
    {
      if Acts(fault) {
        memory := WithTemplates(memory, uid, p, fs);
      }
      ok := !Raises(fault);
    }

    method DeleteUser(uid: nat, fault: Fault) returns (ok: bool)
      modifies this
      ensures ok == !Raises(fault)
      ensures memory == if Acts(fault) then Erased(old(memory), uid) else old(memory)
    {
      if Acts(fault) {
        memory := Erased(memory, uid);
      }
      ok := !Raises(fault);
    }
  }

  // ---------------------------------------------------------------------------
  // Reading the fingerprints
  // ---------------------------------------------------------------------------

  /** What the single reads of indices below `n` bring; a read that fails brings nothing. */
  function Scanned(fs: map<nat, Finger>, plan: Call -> Fault, n: nat): map<nat, Finger> {
    if n == 0 then map[]
    else if Answers(fs, plan, n - 1) then Scanned(fs, plan, n - 1)[n - 1 := fs[n - 1]]
    else Scanned(fs, plan, n - 1)
  }

  predicate Answers(fs: map<nat, Finger>, plan: Call -> Fault, fid: nat) {
    fid in fs && fs[fid].template != [] && plan(OneTemplate(fid)) == Works
  }

  /** The bulk read, and the single reads when it failed or brought nothing for the user. */
  function ReadFingers(fs: map<nat, Finger>, plan: Call -> Fault): map<nat, Finger> {
    if plan(AllTemplates) == Works && fs != map[] then fs else Scanned(fs, plan, 10)
  }

  lemma {:induction false} ScannedSpec(fs: map<nat, Finger>, plan: Call -> Fault, n: nat)
    ensures forall k: nat :: k in Scanned(fs, plan, n) <==> k < n && Answers(fs, plan, k)
    ensures forall k :: k in Scanned(fs, plan, n) ==> k in fs && Scanned(fs, plan, n)[k] == fs[k]
  {
    if n > 0 {
      ScannedSpec(fs, plan, n - 1);
    }
  }

  /**
   * Every fingerprint is read exactly when the bulk read works or each finger has an index below ten,
   * a template, and a single read that works; no failure of these reads is reported.
   */
  lemma FingersReadExactly(fs: map<nat, Finger>, plan: Call -> Fault)
    ensures ReadFingers(fs, plan) == fs
      <==> (plan(AllTemplates) == Works || forall k :: k in fs ==> k < 10 && Answers(fs, plan, k))
    ensures forall k :: k in ReadFingers(fs, plan) ==> k in fs && ReadFingers(fs, plan)[k] == fs[k]
  {
    hide Scanned, Answers;
    var read := Scanned(fs, plan, 10);
    ScannedSpec(fs, plan, 10);
    if forall k :: k in fs ==> k < 10 && Answers(fs, plan, k) {
      assert read.Keys == fs.Keys;
      assert read == fs;
    } else {
      var k :| k in fs && !(k < 10 && Answers(fs, plan, k));
      assert k !in read;
    }
  }

  method ReadSourceFingers(src: ZkDevice, uid: nat, plan: Call -> Fault) returns (fs: map<nat, Finger>)
    ensures fs == ReadFingers(FingersOf(src.memory, uid), plan)
  {
    var stored := FingersOf(src.memory, uid);
    fs := map[];
    if plan(AllTemplates) == Works {
      fs := stored;
    }
    if fs == map[] {
      for fid := 0 to 10
        invariant fs == Scanned(stored, plan, fid)
      {
        if fid in stored && stored[fid].template != [] && plan(OneTemplate(fid)) == Works {
          fs := fs[fid := stored[fid]];
        }
      }
    }
  }

  // ---------------------------------------------------------------------------
  // Choosing the PIN and the UID on the target
  // ---------------------------------------------------------------------------

  function IndexOf(listing: seq<Listed>, pin: string): (i: nat)
    ensures i <= |listing|
    ensures i < |listing| ==> listing[i].person.pin == pin
    ensures forall j :: 0 <= j < i ==> listing[j].person.pin != pin
  {
    if listing == [] || listing[0].person.pin == pin then 0 else 1 + IndexOf(listing[1..], pin)
  }

  function ListedPins(listing: seq<Listed>): (pins: seq<string>)
    ensures |pins| == |listing| && forall i :: 0 <= i < |listing| ==> pins[i] == listing[i].person.pin
  {
    seq(|listing|, i requires 0 <= i < |listing| => listing[i].person.pin)
  }

  function ListedUids(listing: seq<Listed>): set<int> {
    set e | e in listing :: e.uid
  }

  /** An occupant with no name counts as the same person. */
  predicate OtherPerson(occupant: string, name: string) {
    occupant != [] && Lower(Strip(occupant)) != Lower(Strip(name))
  }

  datatype Place = Place(pin: string, uid: nat)

  function Choose(listing: seq<Listed>, wanted: string, name: string): Place {
    var i := IndexOf(listing, wanted);
    if i == |listing| then Place(wanted, LeastFree(1, ListedUids(listing)))
    else if OtherPerson(listing[i].person.name, name) then
      Place(FreePinFor(wanted, ListedPins(listing)), LeastFree(1, ListedUids(listing)))
    else Place(wanted, listing[i].uid)
  }

  /** The slot is free and its PIN unused, or it holds that PIN already and is the same or a nameless person. */
  predicate SafePlace(m: Memory, place: Place, name: string) {
    if place.uid in m.users
    then m.users[place.uid].pin == place.pin && !OtherPerson(m.users[place.uid].name, name)
    else place.uid >= 1 && forall uid :: uid in m.users ==> m.users[uid].pin != place.pin
  }

  lemma ChosenPlaceIsSafe(m: Memory, listing: seq<Listed>, wanted: string, name: string)
    requires Lists(listing, m)
    ensures SafePlace(m, Choose(listing, wanted, name), name)
  {
    hide FreePinFor, OtherPerson;
    var i, place, pins := IndexOf(listing, wanted), Choose(listing, wanted, name), ListedPins(listing);
    if i < |listing| && !OtherPerson(listing[i].person.name, name) {
      assert listing[i] in listing;
    } else {
      LeastFreeSpec(1, ListedUids(listing));
      FreePinIsFree(wanted, pins);
      forall uid | uid in m.users
        ensures uid in ListedUids(listing) && m.users[uid].pin != place.pin
      {
        var k :| 0 <= k < |listing| && listing[k] == Listed(uid, m.users[uid]);
        assert pins[k] in pins && pins[k] == m.users[uid].pin;
      }
    }
  }

  /**
   * A listed occupant is updated in place exactly when they have no name or the same one but for case
   * and surrounding blanks.
   */
  lemma OccupantIsUpdatedExactly(listing: seq<Listed>, wanted: string, name: string)
    requires IndexOf(listing, wanted) < |listing|
    ensures var occupant := listing[IndexOf(listing, wanted)];
      Choose(listing, wanted, name) == Place(wanted, occupant.uid)
      <==> occupant.person.name == [] || Lower(Strip(occupant.person.name)) == Lower(Strip(name))
  {
    hide FreePinFor, Lower, Strip;
    var i, pins := IndexOf(listing, wanted), ListedPins(listing);
    FreePinIsFree(wanted, pins);
    assert pins[i] in pins && pins[i] == wanted;
  }

  predicate ShowsUid(listing: seq<Listed>, n: nat) {
    exists e :: e in listing && e.uid == n
  }

  /** Somebody else's PIN is replaced by one that nobody listed has, and a new user gets the least UID from 1 that nobody listed has. */
  lemma NewcomerGetsFreshPlace(listing: seq<Listed>, wanted: string, name: string)
    requires var i := IndexOf(listing, wanted);
      i == |listing| || (listing[i].person.name != [] && Lower(Strip(listing[i].person.name)) != Lower(Strip(name)))
    ensures var place := Choose(listing, wanted, name);
      && (IndexOf(listing, wanted) == |listing| ==> place.pin == wanted)
      && (forall e :: e in listing ==> e.person.pin != place.pin && e.uid != place.uid)
      && place.uid >= 1 && (forall n: nat :: 1 <= n < place.uid ==> ShowsUid(listing, n))
  {
    hide FreePinFor, Lower, Strip;
    var i, pins, place := IndexOf(listing, wanted), ListedPins(listing), Choose(listing, wanted, name);
    FreePinIsFree(wanted, pins);
    LeastFreeSpec(1, ListedUids(listing));
    forall e | e in listing
      ensures e.person.pin != place.pin && e.uid != place.uid
    {
      var k :| 0 <= k < |listing| && listing[k] == e;
      assert pins[k] in pins && pins[k] == e.person.pin;
      assert e.uid in ListedUids(listing);
    }
    forall n: nat | 1 <= n < place.uid
      ensures ShowsUid(listing, n)
    {
      assert n in ListedUids(listing);
    }
  }

  // ---------------------------------------------------------------------------
  // The protocol
  // ---------------------------------------------------------------------------

  /** Both memories at one moment. */
  datatype Both = Both(src: Memory, tgt: Memory)

  /** What was decided before the first write: whom to move, with which fingerprints, and where to. */
  datatype Job = Job(uid: nat, person: Person, fingers: map<nat, Finger>, place: Place)

  datatype Outcome = NoUser | Failed | NotVerified | Done(pin: string)

  /** The memories after every writing call that was made, and how the migration ended. */
  datatype Story = Story(states: seq<Both>, outcome: Outcome)

  /** A nameless person is written under a made-up name. */
  function ShownName(p: Person): string {
    if p.name != [] then p.name else "User " + p.pin
  }

  function Enrolled(job: Job): Person {
    job.person.(pin := job.place.pin, name := ShownName(job.person))
  }

  predicate HasPin(m: Memory, pin: string) {
    exists uid :: uid in m.users && m.users[uid].pin == pin
  }

  /** The job follows from what the readers held at the start. */
  ghost predicate IsJob(job: Job, start: Both, userId: string, target: Option<string>, plan: Call -> Fault) {
    && job.uid in start.src.users && start.src.users[job.uid] == job.person && job.person.pin == userId
    && job.fingers == ReadFingers(FingersOf(start.src, job.uid), plan)
    && exists listing :: Lists(listing, start.tgt) && job.place == Choose(listing, WantedPin(userId, target), ShownName(job.person))
  }

  function AfterSet(b: Both, job: Job, plan: Call -> Fault): Both {
    if Acts(plan(SetUser)) then b.(tgt := WithUser(b.tgt, job.place.uid, Enrolled(job))) else b
  }

  function AfterSave(b: Both, job: Job, plan: Call -> Fault): Both {
    if Acts(plan(SaveTemplates)) then b.(tgt := WithTemplates(b.tgt, job.place.uid, Enrolled(job), job.fingers)) else b
  }

  function AfterDelete(b: Both, job: Job, plan: Call -> Fault): Both {
    if Acts(plan(DeleteUser)) then b.(src := Erased(b.src, job.uid)) else b
  }

  function Carried(b: Both, job: Job, plan: Call -> Fault, move: bool): Story {
    var profiled := AfterSet(b, job, plan);
    if Raises(plan(SetUser)) then Story([b, profiled], Failed)
    else if job.fingers == map[] then Checked([b, profiled], job, plan, move)
    else
      var saved := AfterSave(profiled, job, plan);
      if Raises(plan(SaveTemplates)) then Story([b, profiled, saved], Failed)
      else Checked([b, profiled, saved], job, plan, move)
  }

  function Checked(states: seq<Both>, job: Job, plan: Call -> Fault, move: bool): Story
    requires states != []
  {
    var b := states[|states| - 1];
    if Raises(plan(RefreshTarget)) || plan(ListAgain) != Works then Story(states, Failed)
    else if !HasPin(b.tgt, job.place.pin) then Story(states, NotVerified)
    else if !move then Story(states, Done(job.place.pin))
    else Story(
      states + [AfterDelete(b, job, plan)],
      if Raises(plan(DeleteUser)) || Raises(plan(RefreshSource)) then Failed else Done(job.place.pin))
  }

  /** The migration writes the target, looks again, and only then deletes from the source. */
  method MigrateUser(src: ZkDevice, tgt: ZkDevice, userId: string, target: Option<string>, move: bool, plan: Call -> Fault)
    returns (outcome: Outcome, ghost job: Option<Job>, ghost states: seq<Both>)
    requires src != tgt
    modifies src, tgt
    ensures var start := Both(old(src.memory), old(tgt.memory));
      && states != [] && states[|states| - 1] == Both(src.memory, tgt.memory)
      && match job
         case None => states == [start] && (outcome == Failed || (outcome == NoUser && !HasPin(start.src, userId)))
         case Some(j) => IsJob(j, start, userId, target, plan) && Story(states, outcome) == Carried(start, j, plan, move)
    ensures HasPin(old(src.memory), userId) && (forall c :: plan(c) == Works) ==> job.Some?
  {
    hide Choose, ReadFingers, Enrolled, ShownName, WantedPin, Carried, Checked;
    job := None;
    ghost var start := Both(src.memory, tgt.memory);
    states := [start];
    if Raises(plan(ConnectSource)) || Raises(plan(DisableSource)) {
      return Failed, job, states;
    }
    var people := src.GetUsers(plan(ListSource));
    if people.None? {
      return Failed, job, states;
    }
    var at := IndexOf(people.value, userId);
    ShownExactly(people.value, src.memory, userId);
    if at == |people.value| {
      return NoUser, job, states;
    }
    var uid, person := people.value[at].uid, people.value[at].person;
    assert people.value[at] in people.value;
    var fingers := ReadSourceFingers(src, uid, plan);
    if Raises(plan(ConnectTarget)) || Raises(plan(DisableTarget)) {
      return Failed, job, states;
    }
    var others := tgt.GetUsers(plan(ListTarget));
    if others.None? {
      return Failed, job, states;
    }
    var place := ChoosePlace(others.value, WantedPin(userId, target), ShownName(person));
    ghost var j := Job(uid, person, fingers, place);
    job := Some(j);
    assert IsJob(j, start, userId, target, plan);
    outcome, states := Carry(src, tgt, Job(uid, person, fingers, place), move, plan);
  }

  lemma ShownExactly(listing: seq<Listed>, m: Memory, pin: string)
    requires Lists(listing, m)
    ensures HasPin(m, pin) <==> IndexOf(listing, pin) < |listing|
  {
    var i := IndexOf(listing, pin);
    if i < |listing| {
      assert listing[i] in listing;
    } else {
      forall uid | uid in m.users
        ensures m.users[uid].pin != pin
      {
        var k :| 0 <= k < |listing| && listing[k] == Listed(uid, m.users[uid]);
      }
    }
  }

  method ChoosePlace(listing: seq<Listed>, wanted: string, name: string) returns (place: Place)
    ensures place == Choose(listing, wanted, name)
  {
    hide FreePinFor, OtherPerson;
    var pin := wanted;
    var i := IndexOf(listing, pin);
    if i < |listing| && OtherPerson(listing[i].person.name, name) {
      pin := FindFreePin(pin, ListedPins(listing));
      i := |listing|;
    }
    if i < |listing| {
      place := Place(pin, listing[i].uid);
    } else {
      var uid := FindLeastFree(1, ListedUids(listing));
      place := Place(pin, uid);
    }
  }

  method Carry(src: ZkDevice, tgt: ZkDevice, job: Job, move: bool, plan: Call -> Fault)
    returns (outcome: Outcome, ghost states: seq<Both>)
    requires src != tgt
    modifies src, tgt
    ensures states != [] && states[|states| - 1] == Both(src.memory, tgt.memory)
    ensures Story(states, outcome) == Carried(Both(old(src.memory), old(tgt.memory)), job, plan, move)
  {
    hide Enrolled, WithUser, WithTemplates, Checked;
    ghost var start := Both(src.memory, tgt.memory);
    var ok := tgt.SetUser(job.place.uid, Enrolled(job), plan(SetUser));
    ghost var profiled := Both(src.memory, tgt.memory);
    assert profiled == AfterSet(start, job, plan);
    states := [start, profiled];
    if !ok {
      return Failed, states;
    }
    if job.fingers != map[] {
      ok := tgt.SaveUserTemplate(job.place.uid, Enrolled(job), job.fingers, plan(SaveTemplates));
      ghost var saved := Both(src.memory, tgt.memory);
      assert saved == AfterSave(profiled, job, plan);
      states := [start, profiled, saved];
      if !ok {
        return Failed, states;
      }
    }
    assert Carried(start, job, plan, move) == Checked(states, job, plan, move);
    outcome, states := CheckAndDelete(src, tgt, job, move, plan, states);
  }

  method CheckAndDelete(src: ZkDevice, tgt: ZkDevice, job: Job, move: bool, plan: Call -> Fault, ghost before: seq<Both>)
    returns (outcome: Outcome, ghost states: seq<Both>)
    requires src != tgt && before != [] && before[|before| - 1] == Both(src.memory, tgt.memory)
    modifies src
    ensures states != [] && states[|states| - 1] == Both(src.memory, tgt.memory)
    ensures Story(states, outcome) == Checked(before, job, plan, move)
  {
    hide Erased, HasPin;
    states := before;
    if Raises(plan(RefreshTarget)) {
      return Failed, states;
    }
    var again := tgt.GetUsers(plan(ListAgain));
    if again.None? {
      return Failed, states;
    }
    ShownExactly(again.value, tgt.memory, job.place.pin);
    if IndexOf(again.value, job.place.pin) == |again.value| {
      return NotVerified, states;
    }
    if move {
      var ok := src.DeleteUser(job.uid, plan(DeleteUser));
      states := states + [Both(src.memory, tgt.memory)];
      if !ok || Raises(plan(RefreshSource)) {
        return Failed, states;
      }
    }
    outcome := Done(job.place.pin);
  }

  // ---------------------------------------------------------------------------
  // What the protocol keeps
  // ---------------------------------------------------------------------------

  lemma JobPlaceIsSafe(job: Job, start: Both, userId: string, target: Option<string>, plan: Call -> Fault)
    requires IsJob(job, start, userId, target, plan)
    ensures SafePlace(start.tgt, job.place, ShownName(job.person))
  {
    hide Choose, WantedPin;
    var listing :| Lists(listing, start.tgt) && job.place == Choose(listing, WantedPin(userId, target), ShownName(job.person));
    ChosenPlaceIsSafe(start.tgt, listing, WantedPin(userId, target), ShownName(job.person));
  }

  /** The writes so far changed nothing, or left the person's record in the chosen place. */
  predicate Written(start: Both, now: Both, job: Job) {
    && now.src == start.src && SameBut(start.tgt, now.tgt, job.place.uid)
    && (now.tgt == start.tgt || (job.place.uid in now.tgt.users && now.tgt.users[job.place.uid] == Enrolled(job)))
  }

  lemma SetWrites(start: Both, job: Job, plan: Call -> Fault)
    ensures Written(start, start, job) && Written(start, AfterSet(start, job, plan), job)
  {
    hide Enrolled;
    var m, now := start.tgt, AfterSet(start, job, plan);
    assert now.tgt.users - {job.place.uid} == m.users - {job.place.uid};
  }

  lemma SaveWrites(start: Both, now: Both, job: Job, plan: Call -> Fault)
    requires Written(start, now, job)
    ensures Written(start, AfterSave(now, job, plan), job)
  {
    hide Enrolled;
    var next := AfterSave(now, job, plan);
    assert next.tgt.users - {job.place.uid} == now.tgt.users - {job.place.uid};
    assert next.tgt.fingers - {job.place.uid} == now.tgt.fingers - {job.place.uid};
  }

  /** Both memories once all writes were made. */
  function AfterWrites(start: Both, job: Job, plan: Call -> Fault): Both {
    var profiled := AfterSet(start, job, plan);
    if job.fingers == map[] then profiled else AfterSave(profiled, job, plan)
  }

  /** The moment of the delete, right after the target was seen to hold the PIN. */
  predicate DeleteMoment(start: Both, states: seq<Both>, k: nat, job: Job, plan: Call -> Fault) {
    var wrote := AfterWrites(start, job, plan);
    && 2 <= k == |states| - 1 && states[k] == AfterDelete(wrote, job, plan) && states[k - 1] == wrote
    && Written(start, wrote, job) && HasPin(wrote.tgt, job.place.pin) && plan(ListAgain) == Works
    && !Raises(plan(SetUser)) && (job.fingers != map[] ==> !Raises(plan(SaveTemplates)))
  }

  lemma Moments(start: Both, job: Job, plan: Call -> Fault, move: bool, k: nat)
    requires k < |Carried(start, job, plan, move).states|
    ensures var states := Carried(start, job, plan, move).states;
      Written(start, states[k], job) || (move && DeleteMoment(start, states, k, job, plan))
  {
    hide AfterSet, AfterSave, AfterDelete, Written, HasPin;
    SetWrites(start, job, plan);
    SaveWrites(start, AfterSet(start, job, plan), job, plan);
  }

  /** The place holds the PIN: the record just written, or an untouched one of somebody of the same name or of none. */
  predicate Arrived(start: Both, now: Both, job: Job) {
    && job.place.uid in now.tgt.users && now.tgt.users[job.place.uid].pin == job.place.pin
    && (now.tgt.users[job.place.uid] == Enrolled(job)
        || (now.tgt == start.tgt && !OtherPerson(now.tgt.users[job.place.uid].name, ShownName(job.person))))
  }

  lemma SeenMeansArrived(start: Both, now: Both, job: Job)
    requires SafePlace(start.tgt, job.place, ShownName(job.person))
    requires Written(start, now, job) && HasPin(now.tgt, job.place.pin)
    ensures Arrived(start, now, job)
  {
    hide OtherPerson, ShownName, SameBut;
  }

  /** The source is untouched, or only the moved record is gone and the target holds its PIN. */
  predicate PinKept(start: Both, now: Both, job: Job, move: bool) {
    now.src == start.src || (move && now.src == Erased(start.src, job.uid) && Arrived(start, now, job))
  }

  /**
   * Whatever calls fail, before or after taking effect, or are ignored: at every moment the source is
   * as it was, or only the moved record is gone and the chosen place holds the destination PIN, and no
   * other record or fingerprint of the target has changed.
   */
  lemma PinIsAlwaysHeld(job: Job, start: Both, userId: string, target: Option<string>, plan: Call -> Fault, move: bool)
    requires IsJob(job, start, userId, target, plan)
    ensures var states := Carried(start, job, plan, move).states;
      forall k :: 0 <= k < |states| ==>
        PinKept(start, states[k], job, move) && SameBut(start.tgt, states[k].tgt, job.place.uid)
  {
    hide Carried, Enrolled, SafePlace, AfterWrites, SameBut, HasPin, IsJob;
    JobPlaceIsSafe(job, start, userId, target, plan);
    var states, wrote := Carried(start, job, plan, move).states, AfterWrites(start, job, plan);
    forall k | 0 <= k < |states|
      ensures PinKept(start, states[k], job, move) && SameBut(start.tgt, states[k].tgt, job.place.uid)
    {
      Moments(start, job, plan, move, k);
      if states[k].src != start.src {
        SeenMeansArrived(start, wrote, job);
      }
    }
  }

  /**
   * In so many words: at every moment the source is as it was, or without exactly the moved UID while the
   * chosen UID of the target has the chosen PIN; and every other UID of the target is as it was.
   */
  lemma EveryMoment(job: Job, start: Both, userId: string, target: Option<string>, plan: Call -> Fault, move: bool, k: nat)
    requires IsJob(job, start, userId, target, plan)
    requires k < |Carried(start, job, plan, move).states|
    ensures var now := Carried(start, job, plan, move).states[k];
      && (now.src == start.src
          || (&& move && now.src.users == start.src.users - {job.uid} && now.src.fingers == start.src.fingers - {job.uid}
              && job.place.uid in now.tgt.users && now.tgt.users[job.place.uid].pin == job.place.pin))
      && (forall n: nat :: n != job.place.uid ==>
            && (n in now.tgt.users <==> n in start.tgt.users) && (n in now.tgt.users ==> now.tgt.users[n] == start.tgt.users[n])
            && (n in now.tgt.fingers <==> n in start.tgt.fingers)
            && (n in now.tgt.fingers ==> now.tgt.fingers[n] == start.tgt.fingers[n]))
  {
    hide Carried, IsJob, Enrolled;
    PinIsAlwaysHeld(job, start, userId, target, plan, move);
    var now := Carried(start, job, plan, move).states[k];
    OtherUidsSame(start.tgt, now.tgt, job.place.uid);
  }

  lemma OtherUidsSame(m: Memory, n: Memory, uid: nat)
    requires SameBut(m, n, uid)
    ensures forall x: nat :: x != uid ==>
      && (x in n.users <==> x in m.users) && (x in n.users ==> n.users[x] == m.users[x])
      && (x in n.fingers <==> x in m.fingers) && (x in n.fingers ==> n.fingers[x] == m.fingers[x])
  {
    forall x: nat | x != uid
      ensures (x in n.users <==> x in m.users) && (x in n.users ==> n.users[x] == m.users[x])
      ensures (x in n.fingers <==> x in m.fingers) && (x in n.fingers ==> n.fingers[x] == m.fingers[x])
    {
      assert x in m.users <==> x in m.users - {uid};
      assert x in n.users <==> x in n.users - {uid};
      assert x in m.fingers <==> x in m.fingers - {uid};
      assert x in n.fingers <==> x in n.fingers - {uid};
    }
  }

  /** A moment at which the source has lost the person, or the migration is reported as done. */
  predicate Completed(start: Both, job: Job, plan: Call -> Fault, move: bool, k: nat) {
    var story := Carried(start, job, plan, move);
    k < |story.states| && (story.states[k].src != start.src || (story.outcome.Done? && k == |story.states| - 1))
  }

  lemma AllWritesMade(start: Both, job: Job, plan: Call -> Fault, move: bool, k: nat)
    requires Completed(start, job, plan, move, k)
    ensures var wrote := AfterWrites(start, job, plan);
      && Carried(start, job, plan, move).states[k].tgt == wrote.tgt
      && HasPin(wrote.tgt, job.place.pin) && Written(start, wrote, job)
      && !Raises(plan(SetUser)) && (job.fingers != map[] ==> !Raises(plan(SaveTemplates)))
  {
    hide Carried, AfterWrites, HasPin, SameBut, Enrolled;
    var story := Carried(start, job, plan, move);
    if story.states[k].src != start.src {
      Moments(start, job, plan, move, k);
    } else {
      DoneMoment(start, job, plan, move);
    }
  }

  lemma RecordHeldExactly(start: Both, job: Job, plan: Call -> Fault)
    requires SafePlace(start.tgt, job.place, ShownName(job.person))
    requires var wrote := AfterWrites(start, job, plan); HasPin(wrote.tgt, job.place.pin) && Written(start, wrote, job)
    requires !Raises(plan(SetUser)) && (job.fingers != map[] ==> !Raises(plan(SaveTemplates)))
    ensures var wrote := AfterWrites(start, job, plan);
      && job.place.uid in wrote.tgt.users
      && (wrote.tgt.users[job.place.uid] == Enrolled(job)
          <==> (|| plan(SetUser) == Works
                || (job.fingers != map[] && plan(SaveTemplates) == Works)
                || job.place.uid !in start.tgt.users
                || start.tgt.users[job.place.uid] == Enrolled(job)))
  {
    hide Enrolled, SameBut, HasPin, SafePlace;
    SeenMeansArrived(start, AfterWrites(start, job, plan), job);
    if plan(SetUser) != Works && (job.fingers == map[] || plan(SaveTemplates) != Works) {
      assert AfterWrites(start, job, plan) == start;
    }
  }

  /**
   * When the source has lost the person, or the migration is done, the target holds the whole record
   * exactly when a write of it was not ignored, the place was free, or it held that record already.
   */
  lemma PersonIsKeptExactly(job: Job, start: Both, userId: string, target: Option<string>, plan: Call -> Fault, move: bool, k: nat)
    requires IsJob(job, start, userId, target, plan)
    requires Completed(start, job, plan, move, k)
    ensures var now := Carried(start, job, plan, move).states[k];
      && job.place.uid in now.tgt.users
      && (now.tgt.users[job.place.uid] == Enrolled(job)
          <==> (|| plan(SetUser) == Works
                || (job.fingers != map[] && plan(SaveTemplates) == Works)
                || job.place.uid !in start.tgt.users
                || start.tgt.users[job.place.uid] == Enrolled(job)))
  {
    hide Carried, AfterWrites, Completed, Enrolled, HasPin, IsJob, SafePlace, Written;
    JobPlaceIsSafe(job, start, userId, target, plan);
    AllWritesMade(start, job, plan, move, k);
    RecordHeldExactly(start, job, plan);
  }

  /** The failing side is reached: a nameless stranger's PIN and one ignored write lose the person for good. */
  lemma IgnoredWriteLosesThePerson(ann: Person, stranger: Person, plan: Call -> Fault)
    requires plan(SetUser) == Ignored && forall c :: c != SetUser ==> plan(c) == Works
    requires ann.pin == stranger.pin == "7" && ann.name == "Ann" && stranger.name == "" && ann.card != stranger.card
    ensures var start := Both(Memory(map[1 := ann], map[]), Memory(map[4 := stranger], map[]));
      var job := Job(1, ann, map[], Place("7", 4));
      var story := Carried(start, job, plan, true);
      && IsJob(job, start, "7", None, plan)
      && story.outcome == Done("7") && |story.states| == 3
      && story.states[2] == Both(Memory(map[], map[]), start.tgt) && start.tgt.users[4] != Enrolled(job)
  {
    hide Carried, IsJob, AfterSet, AfterDelete, HasPin;
    var start := Both(Memory(map[1 := ann], map[]), Memory(map[4 := stranger], map[]));
    var job := Job(1, ann, map[], Place("7", 4));
    StrangerJob(start, job, ann, stranger, plan);
    IgnoredMemories(start, job, plan);
    PinIsThere(start.tgt, 4, stranger);
    ShortStory(start, job, plan);
  }

  lemma StrangerJob(start: Both, job: Job, ann: Person, stranger: Person, plan: Call -> Fault)
    requires ann.pin == stranger.pin == "7" && ann.name == "Ann" && stranger.name == "" && ann.card != stranger.card
    requires start == Both(Memory(map[1 := ann], map[]), Memory(map[4 := stranger], map[])) && job == Job(1, ann, map[], Place("7", 4))
    ensures IsJob(job, start, "7", None, plan) && start.tgt.users[4] != Enrolled(job)
  {
    hide Choose, ReadFingers, Lists;
    StrangerIsListed(stranger);
    NoFingersRead(plan);
  }

  lemma IgnoredMemories(start: Both, job: Job, plan: Call -> Fault)
    requires plan(SetUser) == Ignored && plan(DeleteUser) == Works
    requires start.src.users.Keys == {job.uid} && start.src.fingers == map[]
    ensures AfterSet(start, job, plan) == start
    ensures AfterDelete(start, job, plan) == Both(Memory(map[], map[]), start.tgt)
  {
    ErasedAlone(start.src, job.uid);
  }

  /** A move with no fingerprints in which nothing raises. */
  lemma ShortStory(start: Both, job: Job, plan: Call -> Fault)
    requires job.fingers == map[] && plan(ListAgain) == Works && HasPin(AfterSet(start, job, plan).tgt, job.place.pin)
    requires !Raises(plan(SetUser)) && !Raises(plan(RefreshTarget)) && !Raises(plan(DeleteUser)) && !Raises(plan(RefreshSource))
    ensures var wrote := AfterSet(start, job, plan);
      Carried(start, job, plan, true) == Story([start, wrote, AfterDelete(wrote, job, plan)], Done(job.place.pin))
  {
    hide AfterSet, AfterDelete, HasPin;
  }

  /** And one with fingerprints. */
  lemma LongStory(start: Both, job: Job, plan: Call -> Fault)
    requires var wrote := AfterSet(start, job, plan);
      job.fingers != map[] && plan(ListAgain) == Works && HasPin(AfterSave(wrote, job, plan).tgt, job.place.pin)
    requires !Raises(plan(SetUser)) && !Raises(plan(SaveTemplates)) && !Raises(plan(RefreshTarget))
    requires !Raises(plan(DeleteUser)) && !Raises(plan(RefreshSource))
    ensures var wrote := AfterSet(start, job, plan);
      var saved := AfterSave(wrote, job, plan);
      Carried(start, job, plan, true) == Story([start, wrote, saved, AfterDelete(saved, job, plan)], Done(job.place.pin))
  {
    hide AfterSet, AfterSave, AfterDelete, HasPin;
  }

  lemma StrangerIsListed(stranger: Person)
    requires stranger.pin == "7" && stranger.name == ""
    ensures Lists([Listed(4, stranger)], Memory(map[4 := stranger], map[]))
    ensures Choose([Listed(4, stranger)], "7", "Ann") == Place("7", 4)
  {
    assert IndexOf([Listed(4, stranger)], "7") == 0;
  }

  lemma NoFingersRead(plan: Call -> Fault)
    ensures ReadFingers(map[], plan) == map[]
  {
    FingersReadExactly(map[], plan);
  }

  lemma ErasedAlone(m: Memory, uid: nat)
    requires m.users.Keys == {uid} && m.fingers == map[]
    ensures Erased(m, uid) == Memory(map[], map[])
  {
    assert m.users - {uid} == map[];
    assert m.fingers - {uid} == map[];
  }

  /** The source delete comes after a listing of the target that showed the destination PIN. */
  lemma DeleteComesAfterTheCheck(job: Job, start: Both, plan: Call -> Fault, move: bool, k: nat)
    requires k < |Carried(start, job, plan, move).states|
    requires Carried(start, job, plan, move).states[k].src != start.src
    ensures var states := Carried(start, job, plan, move).states;
      && 2 <= k == |states| - 1 && move && plan(ListAgain) == Works
      && states[k - 1].src == start.src && HasPin(states[k - 1].tgt, job.place.pin) && states[k].tgt == states[k - 1].tgt
  {
    hide Carried, Enrolled, AfterWrites, SameBut, HasPin, Erased;
    Moments(start, job, plan, move, k);
  }

  /** If profile writes act or raise, the target holds the whole record whenever the source has lost it. */
  lemma HonestTargetHoldsTheRecord(job: Job, start: Both, plan: Call -> Fault, move: bool, k: nat)
    requires plan(SetUser) != Ignored
    requires k < |Carried(start, job, plan, move).states|
    requires Carried(start, job, plan, move).states[k].src != start.src
    ensures var now := Carried(start, job, plan, move).states[k];
      job.place.uid in now.tgt.users && now.tgt.users[job.place.uid] == Enrolled(job)
  {
    hide Carried, Enrolled, SameBut, HasPin, Erased;
    Moments(start, job, plan, move, k);
  }

  lemma DoneMoment(start: Both, job: Job, plan: Call -> Fault, move: bool)
    requires Carried(start, job, plan, move).outcome.Done?
    ensures var states, wrote := Carried(start, job, plan, move).states, AfterWrites(start, job, plan);
      && states != [] && states[|states| - 1] == (if move then AfterDelete(wrote, job, plan) else wrote)
      && HasPin(wrote.tgt, job.place.pin) && Written(start, wrote, job)
      && !Raises(plan(SetUser)) && (job.fingers != map[] ==> !Raises(plan(SaveTemplates))) && (move ==> !Raises(plan(DeleteUser)))
  {
    hide AfterSet, AfterSave, AfterDelete, HasPin, Written;
    SetWrites(start, job, plan);
    SaveWrites(start, AfterSet(start, job, plan), job, plan);
  }

  /**
   * A migration reported as done has put the person's record on the target, unless every write was
   * ignored and the place already held an older record; on a new place it always has.
   */
  lemma DoneMeansWritten(job: Job, start: Both, userId: string, target: Option<string>, plan: Call -> Fault, move: bool)
    requires IsJob(job, start, userId, target, plan)
    requires Carried(start, job, plan, move).outcome.Done?
    ensures var states := Carried(start, job, plan, move).states;
      && states != []
      && var end := states[|states| - 1];
      && job.place.uid in end.tgt.users
      && (end.tgt.users[job.place.uid] == Enrolled(job)
          <==> (|| plan(SetUser) == Works
                || (job.fingers != map[] && plan(SaveTemplates) == Works)
                || job.place.uid !in start.tgt.users
                || start.tgt.users[job.place.uid] == Enrolled(job)))
      && end.src == (if move && plan(DeleteUser) == Works then Erased(start.src, job.uid) else start.src)
  {
    hide Carried, Enrolled, SameBut, HasPin, IsJob, SafePlace;
    JobPlaceIsSafe(job, start, userId, target, plan);
    DoneMoment(start, job, plan, move);
    RecordHeldExactly(start, job, plan);
  }

  /** The finger is as stored on the source. */
  predicate HoldsFinger(fs: map<nat, Finger>, stored: map<nat, Finger>, fid: nat)
    requires fid in stored
  {
    fid in fs && fs[fid] == stored[fid]
  }

  /**
   * When the source has lost the person, or the migration is done, a fingerprint is on the target
   * exactly when the template write was not ignored and the finger was read, by the bulk read or by a
   * single read that worked, or when the place held it before. Fingers of the place that the source does
   * not have stay.
   */
  lemma FingersCarriedExactly(job: Job, start: Both, userId: string, target: Option<string>, plan: Call -> Fault, move: bool, k: nat)
    requires IsJob(job, start, userId, target, plan)
    requires Completed(start, job, plan, move, k)
    ensures var stored, was := FingersOf(start.src, job.uid), FingersOf(start.tgt, job.place.uid);
      var fs := FingersOf(Carried(start, job, plan, move).states[k].tgt, job.place.uid);
      && (forall fid :: fid in stored ==>
            (HoldsFinger(fs, stored, fid)
             <==> (plan(SaveTemplates) == Works && (plan(AllTemplates) == Works || (fid < 10 && Answers(stored, plan, fid))))
                  || HoldsFinger(was, stored, fid)))
      && (forall fid :: fid in was && fid !in stored ==> fid in fs && fs[fid] == was[fid])
  {
    hide Carried, AfterWrites, Completed, Answers, ReadFingers, IsJob, Written, HasPin;
    JobReads(job, start, userId, target, plan);
    AllWritesMade(start, job, plan, move, k);
    FingersRead(FingersOf(start.src, job.uid), plan);
    WritesCarry(start, job, plan);
  }

  /** The failing side is reached: with one ignored template write the move is done and the finger is nowhere. */
  lemma IgnoredTemplatesLoseTheFinger(ann: Person, finger: Finger, plan: Call -> Fault)
    requires plan(SaveTemplates) == Ignored && forall c :: c != SaveTemplates ==> plan(c) == Works
    requires ann.pin == "7" && ann.name != []
    ensures var start := Both(Memory(map[1 := ann], map[1 := map[0 := finger]]), Memory(map[], map[]));
      var job := Job(1, ann, map[0 := finger], Place("7", 1));
      var story := Carried(start, job, plan, true);
      && IsJob(job, start, "7", None, plan)
      && story.outcome == Done("7") && |story.states| == 4
      && story.states[3] == Both(Memory(map[], map[]), Memory(map[1 := ann], map[]))
  {
    hide Carried, IsJob, AfterSet, AfterSave, AfterDelete, HasPin;
    var stored := map[0 := finger];
    var start := Both(Memory(map[1 := ann], map[1 := stored]), Memory(map[], map[]));
    var job := Job(1, ann, stored, Place("7", 1));
    FreshJob(start, job, ann, stored, plan);
    FreshMemories(start, job, plan);
    assert 0 in stored && stored != map[];
    PinIsThere(AfterSet(start, job, plan).tgt, 1, ann);
    LongStory(start, job, plan);
  }

  lemma FreshJob(start: Both, job: Job, ann: Person, stored: map<nat, Finger>, plan: Call -> Fault)
    requires ann.pin == "7" && ann.name != [] && plan(AllTemplates) == Works
    requires start == Both(Memory(map[1 := ann], map[1 := stored]), Memory(map[], map[])) && job == Job(1, ann, stored, Place("7", 1))
    ensures IsJob(job, start, "7", None, plan)
  {
    hide Choose, ReadFingers;
    FingersReadExactly(stored, plan);
    EmptyPlace("7", ann.name);
    assert Lists([], start.tgt);
  }

  lemma FreshMemories(start: Both, job: Job, plan: Call -> Fault)
    requires plan(SetUser) == Works && plan(SaveTemplates) == Ignored && plan(DeleteUser) == Works
    requires start.src.users.Keys == {job.uid} && start.src.fingers.Keys == {job.uid} && start.tgt == Memory(map[], map[])
    requires job.person.name != [] && job.person.pin == job.place.pin
    ensures var wrote := Both(start.src, Memory(map[job.place.uid := job.person], map[]));
      && AfterSet(start, job, plan) == wrote && AfterSave(wrote, job, plan) == wrote
      && AfterDelete(wrote, job, plan) == Both(Memory(map[], map[]), wrote.tgt)
  {
    OneUserErased(start.src, job.uid);
  }

  lemma OneUserErased(m: Memory, uid: nat)
    requires m.users.Keys == {uid} && m.fingers.Keys == {uid}
    ensures Erased(m, uid) == Memory(map[], map[])
  {
    assert m.users - {uid} == map[];
    assert m.fingers - {uid} == map[];
  }

  lemma EmptyPlace(pin: string, name: string)
    ensures Choose([], pin, name) == Place(pin, 1)
  {
    assert ListedUids([]) == {};
  }

  /** Finger by finger, what the reads bring. */
  lemma FingersRead(fs: map<nat, Finger>, plan: Call -> Fault)
    ensures var read := ReadFingers(fs, plan);
      && (forall fid :: fid in read <==> fid in fs && (plan(AllTemplates) == Works || (fid < 10 && Answers(fs, plan, fid))))
      && (forall fid :: fid in read ==> read[fid] == fs[fid])
  {
    hide Scanned;
    ScannedSpec(fs, plan, 10);
  }

  lemma WritesCarry(start: Both, job: Job, plan: Call -> Fault)
    requires job.fingers != map[] ==> !Raises(plan(SaveTemplates))
    ensures FingersOf(AfterWrites(start, job, plan).tgt, job.place.uid)
         == FingersOf(start.tgt, job.place.uid) + (if plan(SaveTemplates) == Works then job.fingers else map[])
  {
    hide Enrolled;
    var was := FingersOf(start.tgt, job.place.uid);
    assert was + map[] == was;
  }

  lemma JobReads(job: Job, start: Both, userId: string, target: Option<string>, plan: Call -> Fault)
    requires IsJob(job, start, userId, target, plan)
    ensures job.fingers == ReadFingers(FingersOf(start.src, job.uid), plan)
  {
  }

  /** Field by field: the record written is the source's, under the chosen PIN, and with a made-up name where it has none. */
  lemma WrittenRecordByFields(job: Job)
    ensures var r := Enrolled(job);
      && r.pin == job.place.pin && r.name == (if job.person.name != [] then job.person.name else "User " + job.person.pin)
      && r.privilege == job.person.privilege && r.password == job.person.password
      && r.groupId == job.person.groupId && r.card == job.person.card
  {
  }

  /** A profile write that raises ends the migration at once, with the record written or not as the fault says. */
  lemma RaisedWriteEndsIt(job: Job, start: Both, plan: Call -> Fault, move: bool)
    ensures plan(SetUser) == FailsBefore ==> Carried(start, job, plan, move) == Story([start, start], Failed)
    ensures plan(SetUser) == FailsAfter ==>
      Carried(start, job, plan, move)
      == Story([start, Both(start.src, Memory(start.tgt.users[job.place.uid := Enrolled(job)], start.tgt.fingers))], Failed)
  {
    hide Enrolled;
  }

  /** A delete that raises after its effect is reported as failed although the person has moved. */
  lemma LateDeleteIsReportedFailed(job: Job, start: Both, plan: Call -> Fault)
    requires plan(DeleteUser) == FailsAfter && forall c :: c != DeleteUser ==> plan(c) == Works
    ensures var story := Carried(start, job, plan, true);
      && story.outcome == Failed && story.states != []
      && var end := story.states[|story.states| - 1];
      && end.src == Memory(start.src.users - {job.uid}, start.src.fingers - {job.uid})
      && job.place.uid in end.tgt.users && end.tgt.users[job.place.uid] == Enrolled(job)
  {
    hide Enrolled, HasPin;
    var wrote := AfterWrites(start, job, plan);
    PinIsThere(wrote.tgt, job.place.uid, Enrolled(job));
    EnrolledPin(job);
  }

  /** With no fault every migration of a present user is done. */
  lemma NoFaultNoFailure(job: Job, start: Both, plan: Call -> Fault, move: bool)
    requires forall c :: plan(c) == Works
    ensures Carried(start, job, plan, move).outcome == Done(job.place.pin)
  {
    hide Enrolled, HasPin;
    var wrote := AfterWrites(start, job, plan);
    PinIsThere(wrote.tgt, job.place.uid, Enrolled(job));
    EnrolledPin(job);
  }

  lemma PinIsThere(m: Memory, uid: nat, p: Person)
    requires uid in m.users && m.users[uid] == p
    ensures HasPin(m, p.pin)
  {
  }

  lemma EnrolledPin(job: Job)
    ensures Enrolled(job).pin == job.place.pin
  {
  }
}
