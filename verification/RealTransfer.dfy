/**
 * employee_service.py over hardware readers: a PIN is resolved from one listing of the target, the
 * migration chooses from another, and the access entry records the first.
 */
module RealTransfer {
  import opened Text
  import opened FreePin
  import opened RealMigration
  import Migration
  import Access

  /** The name a listing shows: the one known for the PIN, else the reader's own, else a made-up one. */
  function Displayed(known: string -> Option<string>, p: Person): string {
    var name := known(p.pin);
    if name.Some? && !StartsWith(name.value, "User ") then name.value
    else if p.name != [] then p.name
    else "User " + p.pin
  }

  /** `resolve_target_pin` on a hardware reader; a failed listing counts as an empty one. */
  function Resolved(listing: Option<seq<Listed>>, known: string -> Option<string>, preferred: string, name: string): Migration.Resolution {
    var users := if listing.Some? then listing.value else [];
    var pin := Strip(preferred);
    var i := IndexOf(users, pin);
    if i == |users| then Migration.Resolution(pin, false)
    else if name != [] && Lower(Strip(Displayed(known, users[i].person))) == Lower(Strip(name)) then Migration.Resolution(pin, false)
    else Migration.Resolution(FreePinFor(pin, ListedPins(users)), true)
  }

  /**
   * The PIN is kept exactly when nobody listed has it, or the employee has a name that the one shown for
   * the first who has it matches but for case and blanks; shown is the name known for the PIN unless it
   * begins with "User ", else the reader's own, else one made of the PIN.
   */
  lemma ResolvedExactly(listing: seq<Listed>, known: string -> Option<string>, preferred: string, name: string)
    ensures var r, i := Resolved(Some(listing), known, preferred, name), IndexOf(listing, Strip(preferred));
      var shown :=
        if i == |listing| then ""
        else if known(listing[i].person.pin).Some? && !("User " <= known(listing[i].person.pin).value) then known(listing[i].person.pin).value
        else if listing[i].person.name != [] then listing[i].person.name
        else "User " + listing[i].person.pin;
      && (r.mapped <==> (i < |listing| && (name == [] || Lower(Strip(shown)) != Lower(Strip(name)))))
      && (!r.mapped ==> r.pin == Strip(preferred))
      && (r.mapped ==> forall e :: e in listing ==> e.person.pin != r.pin)
  {
    hide FreePinFor, Lower, Strip;
    var r, pins := Resolved(Some(listing), known, preferred, name), ListedPins(listing);
    FreePinIsFree(Strip(preferred), pins);
    if r.mapped {
      forall e | e in listing
        ensures e.person.pin != r.pin
      {
        var k :| 0 <= k < |listing| && listing[k] == e;
        assert pins[k] in pins;
      }
    }
  }

  method ResolveOnReader(tgt: ZkDevice, known: string -> Option<string>, preferred: string, name: string, fault: Fault)
    returns (r: Migration.Resolution, ghost listing: Option<seq<Listed>>)
    ensures r == Resolved(listing, known, preferred, name)
    ensures listing.None? <==> fault != Works
    ensures listing.Some? ==> Lists(listing.value, tgt.memory)
  {
    hide FreePinFor, Lower, Strip, Lists, Displayed;
    var fetched := tgt.GetUsers(fault);
    listing := fetched;
    var users := [];
    if fetched.Some? {
      users := fetched.value;
    }
    var pin := Strip(preferred);
    var i := IndexOf(users, pin);
    if i == |users| {
      return Migration.Resolution(pin, false), listing;
    }
    if name != [] && Lower(Strip(Displayed(known, users[i].person))) == Lower(Strip(name)) {
      return Migration.Resolution(pin, false), listing;
    }
    var free := FindFreePin(pin, ListedPins(users));
    r := Migration.Resolution(free, true);
  }

  /** One record per PIN. */
  predicate SinglePins(m: Memory) {
    forall a, b :: a in m.users && b in m.users && m.users[a].pin == m.users[b].pin ==> a == b
  }

  /** Everybody with the PIN is nameless, or of that name. */
  predicate Welcome(m: Memory, pin: string, name: string) {
    forall uid :: uid in m.users && m.users[uid].pin == pin ==> !OtherPerson(m.users[uid].name, name)
  }

  lemma ResolvedIsPlain(listing: Option<seq<Listed>>, known: string -> Option<string>, preferred: string, name: string)
    requires Strip(preferred) != []
    ensures var r := Resolved(listing, known, preferred, name); r.pin != [] && Strip(r.pin) == r.pin
  {
    hide FreePinFor, Lower, Strip, Displayed;
    var users := if listing.Some? then listing.value else [];
    StripTrims(preferred);
    StripTrims(Strip(preferred));
    FreePinIsPlain(Strip(preferred), ListedPins(users));
  }

  lemma ListedIsHeld(listing: seq<Listed>, m: Memory, pin: string)
    requires Lists(listing, m) && SinglePins(m)
    ensures var i := IndexOf(listing, pin);
      if i == |listing| then !HasPin(m, pin)
      else forall uid :: uid in m.users && m.users[uid].pin == pin ==> uid == listing[i].uid && m.users[uid] == listing[i].person
  {
    var i := IndexOf(listing, pin);
    ShownExactly(listing, m, pin);
    if i < |listing| {
      assert listing[i] in listing;
    }
  }

  /** The migration enrols under the PIN asked for exactly when nobody of another name holds it. */
  lemma ChosenPinExactly(m: Memory, listing: seq<Listed>, wanted: string, name: string)
    requires Lists(listing, m) && SinglePins(m)
    ensures Choose(listing, wanted, name).pin == wanted <==> Welcome(m, wanted, name)
  {
    hide FreePinFor, OtherPerson, SinglePins;
    var i, pins := IndexOf(listing, wanted), ListedPins(listing);
    ListedIsHeld(listing, m, wanted);
    FreePinIsFree(wanted, pins);
    if i < |listing| {
      assert listing[i] in listing;
      assert pins[i] in pins && pins[i] == wanted;
    } else {
      forall uid | uid in m.users
        ensures m.users[uid].pin != wanted
      {
        NotHeld(m, wanted, uid);
      }
    }
  }

  lemma NotHeld(m: Memory, pin: string, uid: nat)
    requires !HasPin(m, pin) && uid in m.users
    ensures m.users[uid].pin != pin
  {
  }

  /**
   * The PIN recorded is the PIN written on the reader exactly when everybody who has it there is
   * nameless or of the source record's name.
   */
  lemma RecordedPinIsWrittenExactly(job: Job, start: Both, userId: string, plan: Call -> Fault,
                                    listing: Option<seq<Listed>>, known: string -> Option<string>, preferred: string, name: string)
    requires Strip(preferred) != [] && SinglePins(start.tgt)
    requires IsJob(job, start, userId, Some(Resolved(listing, known, preferred, name).pin), plan)
    ensures var r := Resolved(listing, known, preferred, name);
      job.place.pin == r.pin <==> Welcome(start.tgt, r.pin, ShownName(job.person))
  {
    hide Choose, Resolved, Welcome, SinglePins, Lists, ShownName;
    var r := Resolved(listing, known, preferred, name);
    ResolvedIsPlain(listing, known, preferred, name);
    assert WantedPin(userId, Some(r.pin)) == r.pin;
    var chosen :| Lists(chosen, start.tgt) && job.place == Choose(chosen, r.pin, ShownName(job.person));
    ChosenPinExactly(start.tgt, chosen, r.pin, ShownName(job.person));
  }

  /** The resolution took the occupant for the same person. */
  predicate SamePerson(listing: Option<seq<Listed>>, r: Migration.Resolution) {
    listing.Some? && !r.mapped && IndexOf(listing.value, r.pin) < |listing.value|
  }

  /**
   * With the target unchanged since, a resolution that worked and did not take the occupant for the same
   * person is always kept to: the two ways to record a wrong PIN are a failed listing and two spellings.
   */
  lemma HonestResolutionIsWritten(job: Job, start: Both, userId: string, plan: Call -> Fault,
                                  listing: Option<seq<Listed>>, known: string -> Option<string>, preferred: string, name: string)
    requires Strip(preferred) != [] && SinglePins(start.tgt)
    requires IsJob(job, start, userId, Some(Resolved(listing, known, preferred, name).pin), plan)
    requires listing.Some? && Lists(listing.value, start.tgt)
    requires !SamePerson(listing, Resolved(listing, known, preferred, name))
    ensures job.place.pin == Resolved(listing, known, preferred, name).pin
  {
    hide FreePinFor, Lower, Strip, Displayed, IsJob, OtherPerson, SinglePins;
    var r := Resolved(listing, known, preferred, name);
    RecordedPinIsWrittenExactly(job, start, userId, plan, listing, known, preferred, name);
    var users := listing.value;
    FreePinIsFree(Strip(preferred), ListedPins(users));
    forall uid | uid in start.tgt.users
      ensures start.tgt.users[uid].pin != r.pin
    {
      var k :| 0 <= k < |users| && users[k] == Listed(uid, start.tgt.users[uid]);
      assert ListedPins(users)[k] in ListedPins(users);
    }
  }

  /** Some record of the person stands under the PIN. */
  predicate Stands(m: Memory, pin: string, p: Person) {
    exists uid :: uid in m.users && m.users[uid] == p && m.users[uid].pin == pin
  }

  /**
   * After a transfer or grant between hardware readers that was reported done, with a profile write that
   * was not ignored, the access entry has the resolved PIN, and the person's record stands under it
   * exactly when everybody who had it was nameless or of their name.
   */
  lemma RecordedEntryNamesTheRecord(job: Job, start: Both, userId: string, plan: Call -> Fault, move: bool,
                                    listing: Option<seq<Listed>>, known: string -> Option<string>, preferred: string, name: string,
                                    access: seq<Access.Entry>, src: string, tgt: string)
    requires Strip(preferred) != [] && SinglePins(start.tgt)
    requires IsJob(job, start, userId, Some(Resolved(listing, known, preferred, name).pin), plan)
    requires Carried(start, job, plan, move).outcome.Done? && plan(SetUser) == Works
    ensures var states, r := Carried(start, job, plan, move).states, Resolved(listing, known, preferred, name);
      var after := Access.AccessAfter(access, src, tgt, r.pin, move);
      var k := Access.EntryAt(after, tgt);
      && states != [] && k < |after| && after[k].pin == r.pin
      && (Stands(states[|states| - 1].tgt, after[k].pin, Enrolled(job))
          <==> Welcome(start.tgt, r.pin, ShownName(job.person)))
  {
    hide Carried, Resolved, IsJob, Welcome, Access.AccessAfter, Enrolled;
    var r := Resolved(listing, known, preferred, name);
    Access.AccessAfterSpec(access, src, tgt, r.pin, move);
    DoneMeansWritten(job, start, userId, Some(r.pin), plan, move);
    RecordedPinIsWrittenExactly(job, start, userId, plan, listing, known, preferred, name);
    EnrolledPin(job);
  }

  /** The failing side is reached: a failed listing reports Bob's PIN free, Ann is written under another, and Bob's is recorded. */
  lemma FailedListingRecordsAnothersPin(ann: Person, bob: Person, known: string -> Option<string>)
    requires ann.pin == bob.pin == "1" && ann.name == "Ann" && bob.name == "Bob"
    ensures var start := Both(Memory(map[1 := ann], map[]), Memory(map[1 := bob], map[]));
      var plan := (c: Call) => Works;
      var r := Resolved(None, known, "1", "Ann");
      var job := Job(1, ann, map[], Place("2", 2));
      && r == Migration.Resolution("1", false)
      && IsJob(job, start, "1", Some(r.pin), plan)
      && Carried(start, job, plan, false).outcome == Done("2")
  {
    var tgt := Memory(map[1 := bob], map[]);
    var start := Both(Memory(map[1 := ann], map[]), tgt);
    var plan := (c: Call) => Works;
    var job := Job(1, ann, map[], Place("2", 2));
    var listing := [Listed(1, bob)];
    Migration.Shorts();
    assert Lists(listing, tgt);
    AnnIsNotBob(listing, bob);
    FingersReadExactly(map[], plan);
    NoFaultNoFailure(job, start, plan, false);
  }

  lemma AnnIsNotBob(listing: seq<Listed>, bob: Person)
    requires listing == [Listed(1, bob)] && bob.pin == "1" && bob.name == "Bob"
    ensures Choose(listing, "1", "Ann") == Place("2", 2)
  {
    assert IndexOf(listing, "1") == 0;
    assert ListedPins(listing) == ["1"];
    Migration.FreeAfterOne();
    assert ListedUids(listing) == {1};
    assert LeastFree(1, {1}) == LeastFree(2, {}) == 2;
    StripTrims("Ann");
    StripTrims("Bob");
    assert Lower("Ann")[0] == 'a' && Lower("Bob")[0] == 'b';
  }
}
