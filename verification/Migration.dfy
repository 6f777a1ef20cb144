/** device_migration.py: enrolling a user on another simulated reader, one at a time and in batches. */
module Migration {
  import opened Text
  import opened FreePin
  import opened Readers

  // ---------------------------------------------------------------------------
  // Enrolling one user on the target
  // ---------------------------------------------------------------------------

  /** The wanted PIN belongs to someone of another name. */
  predicate Collides(tgt: seq<User>, wanted: string, name: string) {
    Has(tgt, wanted) && tgt[Find(tgt, wanted)].name != name
  }

  /** The wanted PIN belongs to someone of the same name, whose record is updated. */
  predicate Updates(tgt: seq<User>, wanted: string, name: string) {
    Has(tgt, wanted) && tgt[Find(tgt, wanted)].name == name
  }

  function EnrolledPin(tgt: seq<User>, wanted: string, name: string): string {
    if Collides(tgt, wanted, name) then FreePinFor(wanted, Pins(tgt)) else wanted
  }

  /** The target list once `u` is enrolled: an update in place, or one more user. */
  function AfterEnrol(tgt: seq<User>, wanted: string, u: User): seq<User> {
    if Updates(tgt, wanted, u.name)
    then tgt[Find(tgt, wanted) := WithProfile(tgt[Find(tgt, wanted)], ProfileOf(u))]
    else tgt + [u.(uid := NextUid(tgt), userId := EnrolledPin(tgt, wanted, u.name))]
  }

  /** A new user is enrolled under a PIN nobody on the target has. */
  lemma NewPinIsFree(tgt: seq<User>, wanted: string, name: string)
    requires !Updates(tgt, wanted, name)
    ensures !Has(tgt, EnrolledPin(tgt, wanted, name))
  {
    hide FreePinFor;
    FreePinIsFree(wanted, Pins(tgt));
    var pin := EnrolledPin(tgt, wanted, name);
    HasIff(tgt, pin);
    PinsAreListed(tgt);
  }

  /** The enrolled PIN names one record on the target, with the source's profile; all others are as before. */
  lemma EnrolSpec(tgt: seq<User>, wanted: string, u: User)
    ensures var after, pin := AfterEnrol(tgt, wanted, u), EnrolledPin(tgt, wanted, u.name);
      && Has(after, pin) && ProfileOf(after[Find(after, pin)]) == ProfileOf(u)
      && |tgt| <= |after| <= |tgt| + 1
      && (forall i :: 0 <= i < |tgt| && i != Find(after, pin) ==> after[i] == tgt[i])
      && (forall i :: 0 <= i < |tgt| ==> after[i].uid == tgt[i].uid && after[i].userId == tgt[i].userId)
  {
    hide FreePinFor;
    var after, pin := AfterEnrol(tgt, wanted, u), EnrolledPin(tgt, wanted, u.name);
    if Updates(tgt, wanted, u.name) {
      FindIs(after, pin, Find(tgt, wanted));
    } else {
      NewPinIsFree(tgt, wanted, u.name);
      FindIs(after, pin, |tgt|);
    }
  }

  /** Field by field: the enrolled record is the source's but for PIN and UID. */
  lemma EnrolByFields(tgt: seq<User>, wanted: string, u: User)
    ensures var after, pin := AfterEnrol(tgt, wanted, u), EnrolledPin(tgt, wanted, u.name);
      && Has(after, pin)
      && var r := after[Find(after, pin)];
      && r.name == u.name && r.privilege == u.privilege && r.password == u.password
      && r.groupId == u.groupId && r.card == u.card && r.fingers == u.fingers
  {
    hide FreePinFor, AfterEnrol, EnrolledPin;
    EnrolSpec(tgt, wanted, u);
  }

  lemma EnrolKeepsSound(tgt: seq<User>, wanted: string, u: User)
    requires Sound(tgt)
    ensures Sound(AfterEnrol(tgt, wanted, u))
  {
    hide Sound, FreePinFor;
    if Updates(tgt, wanted, u.name) {
      SoundSameIds(tgt, AfterEnrol(tgt, wanted, u));
    } else {
      NewPinIsFree(tgt, wanted, u.name);
      SoundAppend(tgt, u.(uid := NextUid(tgt), userId := EnrolledPin(tgt, wanted, u.name)));
    }
  }

  /** Copying the same user again changes nothing exactly when their PIN was not someone else's. */
  lemma CopyTwice(tgt: seq<User>, wanted: string, u: User)
    ensures AfterEnrol(AfterEnrol(tgt, wanted, u), wanted, u) == AfterEnrol(tgt, wanted, u)
       <==> !Collides(tgt, wanted, u.name)
  {
    hide FreePinFor;
    var once := AfterEnrol(tgt, wanted, u);
    if Updates(tgt, wanted, u.name) {
      FindIs(once, wanted, Find(tgt, wanted));
    } else if Collides(tgt, wanted, u.name) {
      FindIs(once, wanted, Find(tgt, wanted));
    } else {
      FindIs(once, wanted, |tgt|);
    }
  }

  /** The PIN names a record with the profile. */
  predicate Holds(users: seq<User>, pin: string, p: Profile) {
    Has(users, pin) && ProfileOf(users[Find(users, pin)]) == p
  }

  lemma HoldsByFields(users: seq<User>, pin: string, u: User)
    ensures Holds(users, pin, ProfileOf(u)) <==>
      exists i :: 0 <= i < |users| && users[i].userId == pin && (forall j :: 0 <= j < i ==> users[j].userId != pin)
        && users[i].name == u.name && users[i].privilege == u.privilege && users[i].password == u.password
        && users[i].groupId == u.groupId && users[i].card == u.card && users[i].fingers == u.fingers
  {
    if i :| 0 <= i < |users| && users[i].userId == pin && (forall j :: 0 <= j < i ==> users[j].userId != pin) {
      FindIs(users, pin, i);
    }
  }

  // ---------------------------------------------------------------------------
  // Asking for a PIN first
  // ---------------------------------------------------------------------------

  datatype Resolution = Resolution(pin: string, mapped: bool)

  /** `resolve_target_pin` */
  function Resolve(tgt: seq<User>, preferred: string, name: string): Resolution {
    var pin := Strip(preferred);
    if !Has(tgt, pin) then Resolution(pin, false)
    else if name != [] && Lower(Strip(tgt[Find(tgt, pin)].name)) == Lower(Strip(name)) then Resolution(pin, false)
    else Resolution(FreePinFor(pin, Pins(tgt)), true)
  }

  /**
   * Enrolling under the PIN that was resolved for `name` uses that PIN, unless the answer was "same
   * person" for an occupant whose name is spelled differently from the enrolled record's.
   */
  lemma ResolvedPinIsEnrolled(tgt: seq<User>, userId: string, preferred: string, name: string, sourceName: string)
    requires Strip(preferred) != []
    ensures var r := Resolve(tgt, preferred, name);
      EnrolledPin(tgt, WantedPin(userId, Some(r.pin)), sourceName) == r.pin
      <==> !Has(tgt, Strip(preferred)) || r.mapped || tgt[Find(tgt, Strip(preferred))].name == sourceName
  {
    hide FreePinFor, Lower, Strip;
    var pin, r := Strip(preferred), Resolve(tgt, preferred, name);
    StripTrims(preferred);
    StripTrims(Strip(preferred));
    FreePinIsFree(pin, Pins(tgt));
    FreePinIsPlain(pin, Pins(tgt));
    if r.mapped {
      MappedPinIsFree(tgt, preferred, name);
    } else if Has(tgt, pin) {
      var i := Find(tgt, pin);
      assert Pins(tgt)[i] in Pins(tgt);
    }
  }

  /**
   * After that enrolment the resolved PIN names a record with the source's profile exactly then; under
   * the other condition it names the occupant.
   */
  lemma ResolvedPinHoldsTheProfile(tgt: seq<User>, userId: string, preferred: string, name: string, u: User)
    requires Strip(preferred) != []
    ensures var r := Resolve(tgt, preferred, name);
      var after := AfterEnrol(tgt, WantedPin(userId, Some(r.pin)), u);
      Holds(after, r.pin, ProfileOf(u))
      <==> !Has(tgt, Strip(preferred)) || r.mapped || tgt[Find(tgt, Strip(preferred))].name == u.name
  {
    hide FreePinFor, Strip, Resolve, WantedPin, Updates;
    var r := Resolve(tgt, preferred, name);
    var wanted := WantedPin(userId, Some(r.pin));
    var after, pin := AfterEnrol(tgt, wanted, u), EnrolledPin(tgt, wanted, u.name);
    ResolvedPinIsEnrolled(tgt, userId, preferred, name, u.name);
    EnrolSpec(tgt, wanted, u);
    if pin != r.pin {
      OccupantStays(tgt, userId, preferred, name, u);
    }
  }

  lemma OccupantStays(tgt: seq<User>, userId: string, preferred: string, name: string, u: User)
    requires Has(tgt, Strip(preferred)) && Strip(preferred) != []
    requires !Resolve(tgt, preferred, name).mapped && tgt[Find(tgt, Strip(preferred))].name != u.name
    ensures var r := Resolve(tgt, preferred, name);
      var after := AfterEnrol(tgt, WantedPin(userId, Some(r.pin)), u);
      Has(after, r.pin) && after[Find(after, r.pin)] == tgt[Find(tgt, Strip(preferred))]
  {
    hide FreePinFor, Strip, Lower;
    var pin := Strip(preferred);
    StripTrims(preferred);
    StripTrims(pin);
    var after := AfterEnrol(tgt, WantedPin(userId, Some(pin)), u);
    FindIs(after, pin, Find(tgt, pin));
  }

  /** The PIN given for a collision is held by nobody. */
  lemma MappedPinIsFree(tgt: seq<User>, preferred: string, name: string)
    requires Resolve(tgt, preferred, name).mapped
    ensures !Has(tgt, Resolve(tgt, preferred, name).pin)
    ensures Resolve(tgt, preferred, name).pin != []
    ensures Strip(Resolve(tgt, preferred, name).pin) == Resolve(tgt, preferred, name).pin
  {
    hide FreePinFor, Strip, Lower;
    var pin := Strip(preferred);
    FreePinIsFree(pin, Pins(tgt));
    FreePinIsPlain(pin, Pins(tgt));
    PinsAreListed(tgt);
    HasIff(tgt, FreePinFor(pin, Pins(tgt)));
  }

  lemma PinsAreListed(users: seq<User>)
    ensures forall u :: u in users ==> u.userId in Pins(users)
  {
    forall u | u in users
      ensures u.userId in Pins(users)
    {
      var i :| 0 <= i < |users| && users[i] == u;
      assert Pins(users)[i] == u.userId;
    }
  }

  // ---------------------------------------------------------------------------
  // Migrating one user
  // ---------------------------------------------------------------------------

  /** Two different readers. */
  datatype Pair = Pair(src: seq<User>, tgt: seq<User>)

  /** `migrate_single_user_simulated` between two readers. */
  function AfterMigrate(p: Pair, userId: string, target: Option<string>, move: bool): Pair {
    if !Has(p.src, userId) then p
    else
      var u := p.src[Find(p.src, userId)];
      Pair(if move then Without(p.src, userId) else p.src, AfterEnrol(p.tgt, WantedPin(userId, target), u))
  }

  /** The same call when both serials name one reader: the target is written before the source is pruned. */
  function AfterSelfMigrate(users: seq<User>, userId: string, target: Option<string>, move: bool): seq<User> {
    if !Has(users, userId) then users
    else
      var enrolled := AfterEnrol(users, WantedPin(userId, target), users[Find(users, userId)]);
      if move then Without(enrolled, userId) else enrolled
  }

  /**
   * On one and the same reader a move keeps the person, under the PIN enrolled, exactly when another PIN
   * than their own was asked for; otherwise nobody has the PIN any more.
   */
  lemma SelfMoveLosesExactly(users: seq<User>, userId: string, target: Option<string>)
    requires Has(users, userId)
    ensures var u := users[Find(users, userId)];
      var pin, after := EnrolledPin(users, WantedPin(userId, target), u.name), AfterSelfMigrate(users, userId, target, true);
      Holds(after, pin, ProfileOf(u)) <==> WantedPin(userId, target) != userId
    ensures WantedPin(userId, target) == userId ==> !Has(AfterSelfMigrate(users, userId, target, true), userId)
  {
    hide FreePinFor, WantedPin, ProfileOf, AfterEnrol, EnrolledPin;
    var u := users[Find(users, userId)];
    var wanted := WantedPin(userId, target);
    var pin, enrolled := EnrolledPin(users, wanted, u.name), AfterEnrol(users, wanted, u);
    EnrolSpec(users, wanted, u);
    WithoutMembers(enrolled, userId);
    if wanted == userId {
      OwnPinIsKept(users, userId, u.name);
    } else {
      OtherPinIsOther(users, userId, wanted, u.name);
      FoundAfterRemoval(enrolled, userId, pin);
    }
  }

  lemma OwnPinIsKept(users: seq<User>, userId: string, name: string)
    requires Has(users, userId) && users[Find(users, userId)].name == name
    ensures EnrolledPin(users, userId, name) == userId
  {
  }

  lemma OtherPinIsOther(users: seq<User>, userId: string, wanted: string, name: string)
    requires Has(users, userId) && wanted != userId
    ensures EnrolledPin(users, wanted, name) != userId
  {
    hide FreePinFor;
    FreePinIsFree(wanted, Pins(users));
    PinsAreListed(users);
    HasIff(users, userId);
  }

  lemma FindCons(u: User, rest: seq<User>, pin: string)
    ensures Find([u] + rest, pin) == if u.userId == pin then 0 else 1 + Find(rest, pin)
  {
    assert ([u] + rest)[1..] == rest;
  }

  /** Removing one PIN leaves the first record of another where it can be found. */
  lemma {:induction false} FoundAfterRemoval(users: seq<User>, gone: string, pin: string)
    requires Has(users, pin) && pin != gone
    ensures var left := Without(users, gone);
      Has(left, pin) && left[Find(left, pin)] == users[Find(users, pin)]
  {
    hide Find, Without;
    var u, tail := users[0], users[1..];
    var rest := Without(tail, gone);
    assert users == [u] + tail;
    WithoutCons(u, tail, gone);
    FindCons(u, tail, pin);
    FindCons(u, rest, pin);
    assert Without(users, gone) == if u.userId == gone then rest else [u] + rest;
    if u.userId != pin {
      FoundAfterRemoval(tail, gone, pin);
    }
  }

  lemma WithoutCons(u: User, rest: seq<User>, pin: string)
    ensures Without([u] + rest, pin) == (if u.userId == pin then [] else [u]) + Without(rest, pin)
  {
    assert ([u] + rest)[1..] == rest;
  }

  /**
   * Moving a user between two serials of one reader under the PIN resolved for `name` keeps their record
   * under that PIN exactly when the name does not match the one on the reader.
   */
  lemma ResolvedSelfMoveLosesExactly(users: seq<User>, pin: string, name: string)
    requires Has(users, pin) && pin != [] && Strip(pin) == pin
    ensures var u, r := users[Find(users, pin)], Resolve(users, pin, name);
      Holds(AfterSelfMigrate(users, pin, Some(r.pin), true), r.pin, ProfileOf(u))
      <==> !(name != [] && Lower(Strip(u.name)) == Lower(Strip(name)))
  {
    hide FreePinFor, Strip, Lower, AfterSelfMigrate, Pins, ProfileOf;
    var u, r := users[Find(users, pin)], Resolve(users, pin, name);
    SelfMoveLosesExactly(users, pin, Some(r.pin));
    if r.mapped {
      MappedPinIsFree(users, pin, name);
    }
  }

  // ---------------------------------------------------------------------------
  // Batches
  // ---------------------------------------------------------------------------

  function PinFor(pinMap: map<string, string>, id: string): Option<string> {
    if id in pinMap then Some(pinMap[id]) else None
  }

  /** `run_migration` between two readers: ids are stripped, and blank ones skipped. */
  function AfterRun(p: Pair, ids: seq<string>, pinMap: map<string, string>, move: bool): Pair
    decreases |ids|
  {
    if ids == [] then p
    else
      var id := Strip(ids[0]);
      var next := if id == [] then p else AfterMigrate(p, id, PinFor(pinMap, id), move);
      AfterRun(next, ids[1..], pinMap, move)
  }

  /** The source records the request names, each once, in the order first asked for. */
  function Movers(src: seq<User>, ids: seq<string>): seq<User>
    decreases |ids|
  {
    if ids == [] then []
    else
      var id := Strip(ids[0]);
      if id == [] || !Has(src, id) then Movers(src, ids[1..])
      else [src[Find(src, id)]] + Movers(Without(src, id), ids[1..])
  }

  function Stripped(ids: seq<string>): seq<string> {
    if ids == [] then []
    else if Strip(ids[0]) == [] then Stripped(ids[1..])
    else [Strip(ids[0])] + Stripped(ids[1..])
  }

  function Profiles(users: seq<User>): seq<Profile> {
    if users == [] then [] else [ProfileOf(users[0])] + Profiles(users[1..])
  }

  lemma ProfilesCons(u: User, rest: seq<User>)
    ensures Profiles([u] + rest) == [ProfileOf(u)] + Profiles(rest)
    ensures Profiles([u]) == [ProfileOf(u)]
  {
    assert ([u] + rest)[1..] == rest;
  }

  lemma {:induction false} ProfilesJoin(a: seq<User>, b: seq<User>)
    ensures Profiles(a + b) == Profiles(a) + Profiles(b)
  {
    if a == [] {
      assert a + b == b;
    } else {
      hide ProfileOf, Profiles;
      ProfilesJoin(a[1..], b);
      assert a == [a[0]] + a[1..] && a + b == [a[0]] + (a[1..] + b);
      ProfilesCons(a[0], a[1..]);
      ProfilesCons(a[0], a[1..] + b);
    }
  }

  /** Nobody on the target has both the PIN and the name of someone on the source. */
  predicate Apart(p: Pair) {
    forall s, t :: s in p.src && t in p.tgt && s.userId == t.userId ==> s.name != t.name
  }

  predicate NamesDiffer(users: seq<User>) {
    forall s, t :: s in users && t in users && s.userId != t.userId ==> s.name != t.name
  }

  /** The movers are exactly the source records whose PIN was asked for, each once. */
  lemma {:induction false} MoversAreTheRequested(src: seq<User>, ids: seq<string>)
    requires Sound(src)
    ensures multiset(Movers(src, ids)) + multiset(WithoutAll(src, Stripped(ids))) == multiset(src)
    ensures forall u :: u in Movers(src, ids) ==> u.userId in Stripped(ids)
    decreases |ids|
  {
    hide Sound, Strip;
    if ids == [] {
      WithoutNone(src);
    } else {
      var id := Strip(ids[0]);
      if id == [] {
        MoversAreTheRequested(src, ids[1..]);
      } else {
        var wanted := Stripped(ids);
        assert wanted == [id] + Stripped(ids[1..]) && wanted[1..] == Stripped(ids[1..]);
        WithoutMore(src, wanted);
        if Has(src, id) {
          WithoutSound(src, id);
          TakeOut(src, id);
          MoversAreTheRequested(Without(src, id), ids[1..]);
        } else {
          WithoutAbsent(src, id);
          MoversAreTheRequested(src, ids[1..]);
        }
      }
    }
  }

  /** Taking out a PIN takes out its one record. */
  lemma {:induction false} TakeOut(src: seq<User>, id: string)
    requires Sound(src) && Has(src, id)
    ensures multiset(src) == multiset(Without(src, id)) + multiset{src[Find(src, id)]}
  {
    hide Sound;
    SoundTail(src);
    assert src == [src[0]] + src[1..];
    if src[0].userId == id {
      WithoutAbsent(src[1..], id);
    } else {
      TakeOut(src[1..], id);
    }
  }

  /** A move under these conditions enrols a new record, so it leaves all of the target alone. */
  lemma MoveAppends(p: Pair, id: string)
    requires Sound(p.src) && NamesDiffer(p.src) && Apart(p) && Has(p.src, id)
    ensures var u, q := p.src[Find(p.src, id)], AfterMigrate(p, id, None, true);
      && |q.tgt| == |p.tgt| + 1 && q.tgt[..|p.tgt|] == p.tgt
      && ProfileOf(q.tgt[|p.tgt|]) == ProfileOf(u)
      && q.src == Without(p.src, id) && Sound(q.src) && NamesDiffer(q.src) && Apart(q)
  {
    hide Sound, FreePinFor;
    var u, q := p.src[Find(p.src, id)], AfterMigrate(p, id, None, true);
    assert u in p.src;
    if Has(p.tgt, id) {
      assert p.tgt[Find(p.tgt, id)] in p.tgt;
    }
    WithoutMembers(p.src, id);
    WithoutSound(p.src, id);
    forall s, t | s in q.src && t in q.tgt && s.userId == t.userId
      ensures s.name != t.name
    {
      assert t in p.tgt || t == q.tgt[|p.tgt|];
    }
  }

  /**
   * A batch move puts every requested source record on the target exactly once with its whole
   * profile, after the target's own records, and leaves the other source records as they were.
   */
  lemma {:induction false} BatchMoveConserves(p: Pair, ids: seq<string>)
    requires Sound(p.src) && NamesDiffer(p.src) && Apart(p)
    ensures var q := AfterRun(p, ids, map[], true);
      && q.src == WithoutAll(p.src, Stripped(ids))
      && p.tgt <= q.tgt
      && Profiles(q.tgt[|p.tgt|..]) == Profiles(Movers(p.src, ids))
    decreases |ids|
  {
    hide Sound, Strip, NamesDiffer, Apart;
    if ids == [] {
      WithoutNone(p.src);
    } else {
      var id := Strip(ids[0]);
      if id == [] {
        BatchMoveConserves(p, ids[1..]);
      } else {
        var wanted, next := Stripped(ids), AfterMigrate(p, id, None, true);
        assert wanted == [id] + Stripped(ids[1..]) && wanted[1..] == Stripped(ids[1..]);
        WithoutMore(p.src, wanted);
        if Has(p.src, id) {
          MoveAppends(p, id);
          BatchMoveConserves(next, ids[1..]);
          MovedOnTop(p, next, AfterRun(p, ids, map[], true), p.src[Find(p.src, id)], Movers(next.src, ids[1..]));
        } else {
          WithoutAbsent(p.src, id);
          BatchMoveConserves(p, ids[1..]);
        }
      }
    }
  }

  lemma MovedOnTop(p: Pair, next: Pair, q: Pair, u: User, rest: seq<User>)
    requires |next.tgt| == |p.tgt| + 1 && next.tgt[..|p.tgt|] == p.tgt
    requires ProfileOf(next.tgt[|p.tgt|]) == ProfileOf(u)
    requires next.tgt <= q.tgt && Profiles(q.tgt[|next.tgt|..]) == Profiles(rest)
    ensures p.tgt <= q.tgt && Profiles(q.tgt[|p.tgt|..]) == Profiles([u] + rest)
  {
    hide ProfileOf, Profiles;
    var n := |p.tgt|;
    assert q.tgt[n..] == [next.tgt[n]] + q.tgt[n + 1..];
    ProfilesCons(next.tgt[n], q.tgt[n + 1..]);
    ProfilesCons(u, rest);
  }

  /** The profiles of target records that a run writes over. */
  function Overwritten(p: Pair, ids: seq<string>, pinMap: map<string, string>): seq<Profile>
    decreases |ids|
  {
    if ids == [] then []
    else
      var id := Strip(ids[0]);
      if id == [] || !Has(p.src, id) then Overwritten(p, ids[1..], pinMap)
      else
        var u, wanted := p.src[Find(p.src, id)], WantedPin(id, PinFor(pinMap, id));
        var rest := Overwritten(AfterMigrate(p, id, PinFor(pinMap, id), true), ids[1..], pinMap);
        if Updates(p.tgt, wanted, u.name) then [ProfileOf(p.tgt[Find(p.tgt, wanted)])] + rest else rest
  }

  function Ledger(p: Pair): multiset<Profile> {
    multiset(Profiles(p.src)) + multiset(Profiles(p.tgt))
  }

  /**
   * With no condition on names and any PIN map, a batch move keeps every profile of both readers,
   * as often as it occurred, except those it wrote over.
   */
  lemma {:induction false} MoveLedger(p: Pair, ids: seq<string>, pinMap: map<string, string>)
    requires Sound(p.src)
    ensures Ledger(AfterRun(p, ids, pinMap, true)) + multiset(Overwritten(p, ids, pinMap)) == Ledger(p)
    decreases |ids|
  {
    hide Sound, Strip, Ledger, AfterMigrate, WantedPin, Updates, PinFor;
    if ids != [] {
      var id := Strip(ids[0]);
      if id == [] {
        MoveLedger(p, ids[1..], pinMap);
      } else {
        var target := PinFor(pinMap, id);
        var next := AfterMigrate(p, id, target, true);
        OneMoveLedger(p, id, target);
        MoveLedger(next, ids[1..], pinMap);
      }
    }
  }

  predicate NamesApart(p: Pair) {
    forall s, t :: s in p.src && t in p.tgt ==> s.name != t.name
  }

  /** What a caller can look up beforehand: names differ on the source, and the target has none of them, or with no PIN map none under the same PIN. */
  predicate NobodyInTheWay(p: Pair, pinMap: map<string, string>) {
    NamesDiffer(p.src) && (NamesApart(p) || (pinMap == map[] && Apart(p)))
  }

  lemma StepStaysClear(p: Pair, id: string, pinMap: map<string, string>)
    requires Sound(p.src) && NobodyInTheWay(p, pinMap) && Has(p.src, id)
    ensures !Updates(p.tgt, WantedPin(id, PinFor(pinMap, id)), p.src[Find(p.src, id)].name)
    ensures NobodyInTheWay(AfterMigrate(p, id, PinFor(pinMap, id), true), pinMap)
  {
    hide Sound, FreePinFor, Strip;
    var target := PinFor(pinMap, id);
    var u, q, wanted := p.src[Find(p.src, id)], AfterMigrate(p, id, target, true), WantedPin(id, target);
    assert u in p.src;
    if Has(p.tgt, wanted) {
      assert p.tgt[Find(p.tgt, wanted)] in p.tgt;
    }
    WithoutMembers(p.src, id);
    forall s, t | s in q.src && t in q.tgt && (t in p.tgt ==> s.name != t.name)
      ensures s.name != t.name
    {
      assert t in p.tgt || t == q.tgt[|p.tgt|];
    }
  }

  /** Under that condition a batch move writes over nobody, so every profile is kept as often as it occurred. */
  lemma {:induction false} NobodyIsWrittenOver(p: Pair, ids: seq<string>, pinMap: map<string, string>)
    requires Sound(p.src) && NobodyInTheWay(p, pinMap)
    ensures Overwritten(p, ids, pinMap) == []
    ensures Ledger(AfterRun(p, ids, pinMap, true)) == Ledger(p)
    decreases |ids|
  {
    hide Sound, Strip, Ledger, WantedPin, Updates, PinFor, NobodyInTheWay, AfterMigrate;
    MoveLedger(p, ids, pinMap);
    if ids != [] {
      var id := Strip(ids[0]);
      if id == [] || !Has(p.src, id) {
        NobodyIsWrittenOver(p, ids[1..], pinMap);
      } else {
        StepStaysClear(p, id, pinMap);
        OneMoveLedger(p, id, PinFor(pinMap, id));
        NobodyIsWrittenOver(AfterMigrate(p, id, PinFor(pinMap, id), true), ids[1..], pinMap);
      }
    }
  }

  /** The target record that a user would be written over, as the target stands. */
  predicate InTheWay(tgt: seq<User>, u: User, pinMap: map<string, string>) {
    Updates(tgt, WantedPin(u.userId, PinFor(pinMap, u.userId)), u.name)
  }

  /** Enrolling somebody of another name as a new user puts nobody new in the way. */
  lemma NewcomerIsNotInTheWay(tgt: seq<User>, newcomer: User, v: User, pinMap: map<string, string>)
    requires v.name != newcomer.name
    ensures InTheWay(tgt + [newcomer], v, pinMap) <==> InTheWay(tgt, v, pinMap)
  {
    hide WantedPin;
    var wanted := WantedPin(v.userId, PinFor(pinMap, v.userId));
    if Has(tgt, wanted) {
      FindIs(tgt + [newcomer], wanted, Find(tgt, wanted));
    } else if newcomer.userId == wanted {
      FindIs(tgt + [newcomer], wanted, |tgt|);
    } else {
      HasIff(tgt + [newcomer], wanted);
      HasIff(tgt, wanted);
    }
  }

  lemma {:induction false} MoversAreThere(src: seq<User>, ids: seq<string>)
    ensures forall u :: u in Movers(src, ids) ==> u in src
    decreases |ids|
  {
    hide Strip;
    if ids != [] {
      var id := Strip(ids[0]);
      MoversAreThere(src, ids[1..]);
      MoversAreThere(Without(src, id), ids[1..]);
      WithoutMembers(src, id);
    }
  }

  lemma FirstMoverStep(p: Pair, id: string, pinMap: map<string, string>, v: User)
    requires NamesDiffer(p.src) && Has(p.src, id) && !InTheWay(p.tgt, p.src[Find(p.src, id)], pinMap)
    requires v in Without(p.src, id)
    ensures InTheWay(AfterMigrate(p, id, PinFor(pinMap, id), true).tgt, v, pinMap) <==> InTheWay(p.tgt, v, pinMap)
  {
    hide WantedPin, EnrolledPin;
    var u := p.src[Find(p.src, id)];
    assert u in p.src;
    WithoutMembers(p.src, id);
    var pin := EnrolledPin(p.tgt, WantedPin(id, PinFor(pinMap, id)), u.name);
    NewcomerIsNotInTheWay(p.tgt, u.(uid := NextUid(p.tgt), userId := pin), v, pinMap);
  }

  lemma NamesDifferWithout(src: seq<User>, id: string)
    requires NamesDiffer(src)
    ensures NamesDiffer(Without(src, id))
  {
    WithoutMembers(src, id);
  }

  /**
   * With different names on the source, a batch move writes over nobody exactly when no user it moves
   * finds somebody of their name under the PIN asked for, on the target as it stands at the start.
   */
  lemma {:induction false} WrittenOverExactly(p: Pair, ids: seq<string>, pinMap: map<string, string>)
    requires NamesDiffer(p.src)
    ensures Overwritten(p, ids, pinMap) == [] <==> forall u :: u in Movers(p.src, ids) ==> !InTheWay(p.tgt, u, pinMap)
    decreases |ids|
  {
    hide Strip, WantedPin, Updates, NamesDiffer, AfterEnrol;
    if ids != [] {
      var id := Strip(ids[0]);
      if id == [] || !Has(p.src, id) {
        WrittenOverExactly(p, ids[1..], pinMap);
      } else {
        var u, q := p.src[Find(p.src, id)], AfterMigrate(p, id, PinFor(pinMap, id), true);
        var rest := Movers(q.src, ids[1..]);
        NamesDifferWithout(p.src, id);
        WrittenOverExactly(q, ids[1..], pinMap);
        assert Movers(p.src, ids) == [u] + rest;
        if !InTheWay(p.tgt, u, pinMap) {
          MoversAreThere(q.src, ids[1..]);
          forall v | v in rest
            ensures InTheWay(q.tgt, v, pinMap) <==> InTheWay(p.tgt, v, pinMap)
          {
            FirstMoverStep(p, id, pinMap, v);
          }
        } else {
          assert u in Movers(p.src, ids);
        }
      }
    }
  }

  lemma OneMoveLedger(p: Pair, id: string, target: Option<string>)
    requires Sound(p.src)
    ensures var q := AfterMigrate(p, id, target, true);
      && Sound(q.src)
      && (!Has(p.src, id) ==> q == p)
      && (Has(p.src, id) ==>
        var u, wanted := p.src[Find(p.src, id)], WantedPin(id, target);
        Ledger(q) + (if Updates(p.tgt, wanted, u.name) then multiset{ProfileOf(p.tgt[Find(p.tgt, wanted)])} else multiset{})
          == Ledger(p))
  {
    hide Sound, WantedPin, Profiles, AfterEnrol, ProfileOf;
    if Has(p.src, id) {
      WithoutSound(p.src, id);
      ProfilesTakeOut(p.src, id);
      var u, wanted, q := p.src[Find(p.src, id)], WantedPin(id, target), AfterMigrate(p, id, target, true);
      EnrolLedger(p.tgt, wanted, u);
      var kept, there := multiset(Profiles(q.src)), multiset(Profiles(p.tgt));
      assert multiset(Profiles(p.src)) == kept + multiset{ProfileOf(u)};
      assert Ledger(p) == kept + (there + multiset{ProfileOf(u)});
      assert Ledger(q) == kept + multiset(Profiles(AfterEnrol(p.tgt, wanted, u)));
    }
  }

  lemma EnrolLedger(tgt: seq<User>, wanted: string, u: User)
    ensures multiset(Profiles(AfterEnrol(tgt, wanted, u)))
          + (if Updates(tgt, wanted, u.name) then multiset{ProfileOf(tgt[Find(tgt, wanted)])} else multiset{})
         == multiset(Profiles(tgt)) + multiset{ProfileOf(u)}
  {
    hide FreePinFor, Profiles;
    if Updates(tgt, wanted, u.name) {
      var k := Find(tgt, wanted);
      ProfilesUpdate(tgt, k, WithProfile(tgt[k], ProfileOf(u)));
    } else {
      var added := u.(uid := NextUid(tgt), userId := EnrolledPin(tgt, wanted, u.name));
      ProfilesJoin(tgt, [added]);
      ProfilesCons(added, []);
    }
  }

  lemma ProfilesUpdate(users: seq<User>, k: nat, u: User)
    requires k < |users|
    ensures multiset(Profiles(users[k := u])) + multiset{ProfileOf(users[k])} == multiset(Profiles(users)) + multiset{ProfileOf(u)}
  {
    hide ProfileOf, Profiles;
    var before, after := users[..k], users[k + 1..];
    assert users == before + ([users[k]] + after);
    assert users[k := u] == before + ([u] + after);
    ProfilesJoin(before, [users[k]] + after);
    ProfilesJoin(before, [u] + after);
    ProfilesCons(users[k], after);
    ProfilesCons(u, after);
  }

  lemma {:induction false} ProfilesTakeOut(src: seq<User>, id: string)
    requires Sound(src) && Has(src, id)
    ensures multiset(Profiles(src)) == multiset(Profiles(Without(src, id))) + multiset{ProfileOf(src[Find(src, id)])}
  {
    hide Sound, ProfileOf;
    SoundTail(src);
    if src[0].userId == id {
      WithoutAbsent(src[1..], id);
    } else {
      ProfilesTakeOut(src[1..], id);
      ProfilesCons(src[0], Without(src[1..], id));
    }
  }

  // ---------------------------------------------------------------------------
  // The PIN map
  // ---------------------------------------------------------------------------

  /** The PIN a request asks for on the target. */
  function Asked(pinMap: map<string, string>, id: string): string {
    if id in pinMap && pinMap[id] != [] then Strip(pinMap[id]) else id
  }

  lemma AskedIsWanted(pinMap: map<string, string>, id: string)
    ensures WantedPin(id, PinFor(pinMap, id)) == Asked(pinMap, id)
  {
  }

  /** The target has nobody under the PIN, or already the profile. */
  predicate OpenTo(tgt: seq<User>, pin: string, u: User) {
    Has(tgt, pin) ==> ProfileOf(tgt[Find(tgt, pin)]) == ProfileOf(u)
  }

  /** A request for someone on the source asks for a PIN that is open to them. */
  predicate Fits(p: Pair, id: string, pinMap: map<string, string>) {
    Has(p.src, id) ==> OpenTo(p.tgt, Asked(pinMap, id), p.src[Find(p.src, id)])
  }

  /** Every request fits, and no two different ones ask for one PIN. */
  predicate AllFit(p: Pair, ids: seq<string>, pinMap: map<string, string>) {
    && (forall id :: id in Stripped(ids) ==> Fits(p, id, pinMap))
    && (forall a, b :: a in Stripped(ids) && b in Stripped(ids) && a != b && Has(p.src, a) && Has(p.src, b)
          ==> Asked(pinMap, a) != Asked(pinMap, b))
  }

  lemma OpenMeansEnrolled(tgt: seq<User>, pin: string, u: User)
    requires OpenTo(tgt, pin, u)
    ensures EnrolledPin(tgt, pin, u.name) == pin && Holds(AfterEnrol(tgt, pin, u), pin, ProfileOf(u))
  {
    hide FreePinFor;
    EnrolSpec(tgt, pin, u);
  }

  /** Enrolling under one PIN leaves what stands under another. */
  lemma OtherPinsStand(tgt: seq<User>, pin: string, u: User, other: string)
    requires other != pin && EnrolledPin(tgt, pin, u.name) == pin
    ensures var after := AfterEnrol(tgt, pin, u);
      Has(after, other) == Has(tgt, other) && (Has(tgt, other) ==> after[Find(after, other)] == tgt[Find(tgt, other)])
  {
    hide FreePinFor;
    var after := AfterEnrol(tgt, pin, u);
    EnrolSpec(tgt, pin, u);
    if Has(tgt, other) {
      FindIs(after, other, Find(tgt, other));
    } else {
      HasIff(after, other);
      HasIff(tgt, other);
    }
  }

  lemma SourceStands(p: Pair, id: string, target: Option<string>, move: bool, other: string)
    requires other != id
    ensures var q := AfterMigrate(p, id, target, move);
      Has(q.src, other) == Has(p.src, other) && (Has(p.src, other) ==> q.src[Find(q.src, other)] == p.src[Find(p.src, other)])
  {
    hide AfterEnrol, WantedPin;
    if Has(p.src, other) {
      FoundAfterRemoval(p.src, id, other);
    } else {
      WithoutMembers(p.src, id);
      HasIff(p.src, other);
      HasIff(Without(p.src, id), other);
    }
  }

  /** One request: the profile stands under the PIN asked for, and what stands under other PINs stays. */
  lemma OneRequest(p: Pair, id: string, pinMap: map<string, string>, move: bool)
    requires Has(p.src, id) && Fits(p, id, pinMap)
    ensures var q, pin, u := AfterMigrate(p, id, PinFor(pinMap, id), move), Asked(pinMap, id), p.src[Find(p.src, id)];
      && q.tgt == AfterEnrol(p.tgt, pin, u) && EnrolledPin(p.tgt, pin, u.name) == pin
      && Holds(q.tgt, pin, ProfileOf(u))
      && q.src == (if move then Without(p.src, id) else p.src)
  {
    hide AfterEnrol, EnrolledPin, Strip, Holds;
    AskedIsWanted(pinMap, id);
    OpenMeansEnrolled(p.tgt, Asked(pinMap, id), p.src[Find(p.src, id)]);
  }

  lemma RestFits(p: Pair, ids: seq<string>, pinMap: map<string, string>, move: bool)
    requires ids != [] && Strip(ids[0]) != [] && Has(p.src, Strip(ids[0])) && AllFit(p, ids, pinMap)
    ensures AllFit(AfterMigrate(p, Strip(ids[0]), PinFor(pinMap, Strip(ids[0])), move), ids[1..], pinMap)
  {
    hide AfterEnrol, EnrolledPin, Strip, WantedPin, PinFor, AfterMigrate, Asked;
    var id := Strip(ids[0]);
    var q, u := AfterMigrate(p, id, PinFor(pinMap, id), move), p.src[Find(p.src, id)];
    assert Stripped(ids) == [id] + Stripped(ids[1..]);
    assert id in Stripped(ids);
    OneRequest(p, id, pinMap, move);
    forall x | x in Stripped(ids[1..])
      ensures Fits(q, x, pinMap)
    {
      assert x in Stripped(ids);
      if x == id {
        if !move {
          assert q.src == p.src;
        } else {
          WithoutMembers(p.src, id);
        }
      } else {
        SourceStands(p, id, PinFor(pinMap, id), move, x);
        if Has(p.src, x) {
          OtherPinsStand(p.tgt, Asked(pinMap, id), u, Asked(pinMap, x));
        }
      }
    }
    forall x | x in Stripped(ids[1..]) && Has(q.src, x)
      ensures x in Stripped(ids) && Has(p.src, x)
    {
      if x != id {
        SourceStands(p, id, PinFor(pinMap, id), move, x);
      }
    }
  }

  /** What stands under a PIN that no request in the batch asks for stays. */
  lemma {:induction false} UnaskedPinStands(p: Pair, ids: seq<string>, pinMap: map<string, string>, move: bool, pin: string, prof: Profile)
    requires AllFit(p, ids, pinMap) && Holds(p.tgt, pin, prof)
    requires forall id :: id in Stripped(ids) && Has(p.src, id) ==>
      Asked(pinMap, id) != pin || ProfileOf(p.src[Find(p.src, id)]) == prof
    ensures Holds(AfterRun(p, ids, pinMap, move).tgt, pin, prof)
    decreases |ids|
  {
    hide AfterEnrol, EnrolledPin, Strip, WantedPin, PinFor, AfterMigrate, Asked, ProfileOf, Fits;
    if ids != [] {
      var id := Strip(ids[0]);
      if id == [] {
        UnaskedPinStands(p, ids[1..], pinMap, move, pin, prof);
      } else {
        var q := AfterMigrate(p, id, PinFor(pinMap, id), move);
        assert Stripped(ids) == [id] + Stripped(ids[1..]) && id in Stripped(ids);
        if Has(p.src, id) {
          OneRequest(p, id, pinMap, move);
          RestFits(p, ids, pinMap, move);
          if Asked(pinMap, id) != pin {
            OtherPinsStand(p.tgt, Asked(pinMap, id), p.src[Find(p.src, id)], pin);
          }
          forall x | x in Stripped(ids[1..]) && Has(q.src, x)
            ensures Asked(pinMap, x) != pin || ProfileOf(q.src[Find(q.src, x)]) == prof
          {
            assert x in Stripped(ids);
            if x != id {
              SourceStands(p, id, PinFor(pinMap, id), move, x);
            } else if move {
              WithoutMembers(p.src, id);
            }
          }
          UnaskedPinStands(q, ids[1..], pinMap, move, pin, prof);
        } else {
          assert q == p by { NobodyToMove(p, id, PinFor(pinMap, id), move); }
          UnaskedPinStands(p, ids[1..], pinMap, move, pin, prof);
        }
      }
    }
  }

  lemma NobodyToMove(p: Pair, id: string, target: Option<string>, move: bool)
    requires !Has(p.src, id)
    ensures AfterMigrate(p, id, target, move) == p
  {
  }

  /** Everyone requested ends under the PIN asked for them. */
  lemma {:induction false} RequestsAreHonoured(p: Pair, ids: seq<string>, pinMap: map<string, string>, move: bool, id: string)
    requires AllFit(p, ids, pinMap) && id in Stripped(ids) && Has(p.src, id)
    ensures Holds(AfterRun(p, ids, pinMap, move).tgt, Asked(pinMap, id), ProfileOf(p.src[Find(p.src, id)]))
    decreases |ids|
  {
    hide AfterEnrol, EnrolledPin, Strip, WantedPin, PinFor, AfterMigrate, Asked, ProfileOf, Fits;
    var first := Strip(ids[0]);
    if first == [] {
      RequestsAreHonoured(p, ids[1..], pinMap, move, id);
    } else {
      assert Stripped(ids) == [first] + Stripped(ids[1..]) && first in Stripped(ids);
      var q := AfterMigrate(p, first, PinFor(pinMap, first), move);
      if !Has(p.src, first) {
        NobodyToMove(p, first, PinFor(pinMap, first), move);
        RequestsAreHonoured(p, ids[1..], pinMap, move, id);
      } else {
        OneRequest(p, first, pinMap, move);
        RestFits(p, ids, pinMap, move);
        if first != id {
          SourceStands(p, first, PinFor(pinMap, first), move, id);
          RequestsAreHonoured(q, ids[1..], pinMap, move, id);
        } else {
          forall x | x in Stripped(ids[1..]) && Has(q.src, x)
            ensures Asked(pinMap, x) != Asked(pinMap, id) || ProfileOf(q.src[Find(q.src, x)]) == ProfileOf(p.src[Find(p.src, id)])
          {
            assert x in Stripped(ids);
            if x != id {
              SourceStands(p, first, PinFor(pinMap, first), move, x);
            } else if move {
              WithoutMembers(p.src, id);
            }
          }
          UnaskedPinStands(q, ids[1..], pinMap, move, Asked(pinMap, id), ProfileOf(p.src[Find(p.src, id)]));
        }
      }
    }
  }

  /**
   * A batch honours its PIN map: where the PINs asked for are different and nobody's on the target,
   * everyone in the request who is on the source ends, with their whole profile, under the stripped PIN
   * the map gives them, and under their own where it gives none or an empty one.
   */
  lemma PinMapIsHonoured(p: Pair, ids: seq<string>, pinMap: map<string, string>, move: bool)
    requires forall id :: id in Stripped(ids) && Has(p.src, id) && id in pinMap && pinMap[id] != [] ==> !Has(p.tgt, Strip(pinMap[id]))
    requires forall id :: id in Stripped(ids) && Has(p.src, id) && !(id in pinMap && pinMap[id] != []) ==> !Has(p.tgt, id)
    requires forall a, b :: a in Stripped(ids) && b in Stripped(ids) && a != b && Has(p.src, a) && Has(p.src, b) ==>
      Asked(pinMap, a) != Asked(pinMap, b)
    ensures forall id :: id in Stripped(ids) && Has(p.src, id) && id in pinMap && pinMap[id] != [] ==>
      Holds(AfterRun(p, ids, pinMap, move).tgt, Strip(pinMap[id]), ProfileOf(p.src[Find(p.src, id)]))
    ensures forall id :: id in Stripped(ids) && Has(p.src, id) && !(id in pinMap && pinMap[id] != []) ==>
      Holds(AfterRun(p, ids, pinMap, move).tgt, id, ProfileOf(p.src[Find(p.src, id)]))
  {
    hide Strip, AfterRun, Stripped;
    forall id | id in Stripped(ids)
      ensures Fits(p, id, pinMap)
    {
    }
    forall id | id in Stripped(ids) && Has(p.src, id)
      ensures Holds(AfterRun(p, ids, pinMap, move).tgt, Asked(pinMap, id), ProfileOf(p.src[Find(p.src, id)]))
    {
      RequestsAreHonoured(p, ids, pinMap, move, id);
    }
  }

  /** Two people of one name can be merged by a batch move: the condition on names is needed. */
  lemma NamesakesMerge(card1: int, card2: int)
    requires card1 != card2
    ensures var p := Pair(
        [User(1, "1", "X", 0, "", "1", card1, []), User(2, "2", "X", 0, "", "1", card2, [])],
        [User(1, "1", "Y", 0, "", "1", 0, [])]);
      && Sound(p.src) && Sound(p.tgt) && Apart(p)
      && var q := AfterRun(p, ["1", "2"], map[], true);
         && q.src == [] && Profile("X", 0, "", "1", card1, []) !in Profiles(q.tgt)
  {
    hide Strip, AfterMigrate, Profiles;
    var a, b := User(1, "1", "X", 0, "", "1", card1, []), User(2, "2", "X", 0, "", "1", card2, []);
    var y := User(1, "1", "Y", 0, "", "1", 0, []);
    var p := Pair([a, b], [y]);
    NamesakeTakesThePin(a, b, y);
    NamesakeIsWrittenOver(a, b, y);
    Shorts();
    var p1 := AfterMigrate(p, "1", None, true);
    var p2 := AfterMigrate(p1, "2", None, true);
    assert ["1", "2"][1..] == ["2"];
    assert AfterRun(p1, ["2"], map[], true) == AfterRun(p2, [], map[], true) == p2;
    ProfilesCons(y, [b]);
    ProfilesCons(b, []);
    assert [y] + [b] == [y, b];
  }

  lemma Shorts()
    ensures Strip("1") == "1" && Strip("2") == "2"
  {
    StripTrims("1");
    StripTrims("2");
  }

  lemma NamesakeTakesThePin(a: User, b: User, y: User)
    requires a.uid == 1 && a.userId == "1" && b.uid == 2 && b.userId == "2" && y.uid == 1 && y.userId == "1"
    requires a.name == b.name == "X" && y.name == "Y"
    ensures AfterMigrate(Pair([a, b], [y]), "1", None, true) == Pair([b], [y, a.(uid := 2, userId := "2")])
  {
    hide Strip, FreePinFor;
    FreeAfterOne();
    var src := [a, b];
    assert Find(src, "1") == 0 && Find([y], "1") == 0;
    assert Pins([y]) == ["1"];
    assert src[1..] == [b] && Without([b], "1") == [b] + Without([], "1");
  }

  lemma NamesakeIsWrittenOver(a: User, b: User, y: User)
    requires a.uid == 1 && a.userId == "1" && b.uid == 2 && b.userId == "2" && y.uid == 1 && y.userId == "1"
    requires a.name == b.name == "X" && y.name == "Y"
    ensures AfterMigrate(Pair([b], [y, a.(uid := 2, userId := "2")]), "2", None, true) == Pair([], [y, b])
  {
    hide Strip, FreePinFor;
    var tgt := [y, a.(uid := 2, userId := "2")];
    assert tgt[1..][0].userId == "2";
    assert Find(tgt, "2") == 1 && Find([b], "2") == 0;
    assert Without([b], "2") == [];
  }

  lemma FreeAfterOne()
    ensures FreePinFor("1", ["1"]) == "2"
  {
    assert PyInt("1") == Some(1);
    assert UsedPins(["1"]) == {1};
    assert LeastFree(1, {1}) == LeastFree(2, {});
    assert Decimal(2) == "2";
  }
}
