/** device_migration.py: simulated readers and everything that changes their user lists. */
module Readers {
  import opened Text
  import opened FreePin

  datatype Finger = Finger(fid: int, valid: int, template: string)

  datatype User = User(
    uid: int,
    userId: string,
    name: string,
    privilege: int,
    password: string,
    groupId: string,
    card: int,
    fingers: seq<Finger>)

  /** What makes a person the same on two readers: all but the reader's own UID and PIN. */
  datatype Profile = Profile(name: string, privilege: int, password: string, groupId: string, card: int, fingers: seq<Finger>)

  function ProfileOf(u: User): Profile {
    Profile(u.name, u.privilege, u.password, u.groupId, u.card, u.fingers)
  }

  function WithProfile(u: User, p: Profile): User {
    User(u.uid, u.userId, p.name, p.privilege, p.password, p.groupId, p.card, p.fingers)
  }

  // ---------------------------------------------------------------------------
  // User lists
  // ---------------------------------------------------------------------------

  function Pins(users: seq<User>): (pins: seq<string>)
    ensures |pins| == |users| && forall i :: 0 <= i < |users| ==> pins[i] == users[i].userId
  {
    seq(|users|, i requires 0 <= i < |users| => users[i].userId)
  }

  /** Index of the first user with a PIN, or the length of the list. */
  function Find(users: seq<User>, pin: string): (i: nat)
    ensures i <= |users|
    ensures i < |users| ==> users[i].userId == pin
    ensures forall j :: 0 <= j < i ==> users[j].userId != pin
  {
    if users == [] || users[0].userId == pin then 0 else 1 + Find(users[1..], pin)
  }

  predicate Has(users: seq<User>, pin: string) {
    Find(users, pin) < |users|
  }

  function Without(users: seq<User>, pin: string): seq<User> {
    if users == [] then []
    else if users[0].userId == pin then Without(users[1..], pin)
    else [users[0]] + Without(users[1..], pin)
  }

  /** `max(uids, default=0) + 1` */
  function NextUid(users: seq<User>): (n: int)
    ensures forall u :: u in users ==> u.uid < n
  {
    if users == [] then 1
    else if |users| == 1 then users[0].uid + 1
    else
      var n := NextUid(users[1..]);
      if users[0].uid < n then n else users[0].uid + 1
  }

  /** The next UID is one above the highest, or one on an empty reader. */
  lemma {:induction false} NextUidExactly(users: seq<User>)
    ensures if users == [] then NextUid(users) == 1 else exists u :: u in users && NextUid(users) == u.uid + 1
  {
    if |users| == 1 {
      assert users[0] in users;
    } else if |users| > 1 {
      NextUidExactly(users[1..]);
      assert users == [users[0]] + users[1..];
      var u :| u in users[1..] && NextUid(users[1..]) == u.uid + 1;
      assert u in users && users[0] in users;
    }
  }

  /** Every PIN once and every UID once. */
  predicate Sound(users: seq<User>) {
    && (forall i, j :: 0 <= i < j < |users| ==> users[i].userId != users[j].userId)
    && (forall i, j :: 0 <= i < j < |users| ==> users[i].uid != users[j].uid)
  }

  lemma HasIff(users: seq<User>, pin: string)
    ensures Has(users, pin) <==> exists u :: u in users && u.userId == pin
  {
    if Has(users, pin) {
      assert users[Find(users, pin)] in users;
    }
  }

  lemma FindIs(users: seq<User>, pin: string, i: nat)
    requires i < |users| && users[i].userId == pin
    requires forall j :: 0 <= j < i ==> users[j].userId != pin
    ensures Find(users, pin) == i && Has(users, pin)
  {
  }

  lemma {:induction false} WithoutMembers(users: seq<User>, pin: string)
    ensures forall u :: u in Without(users, pin) <==> u in users && u.userId != pin
    ensures !Has(Without(users, pin), pin)
  {
    if users != [] {
      WithoutMembers(users[1..], pin);
      assert users == [users[0]] + users[1..];
    }
    HasIff(Without(users, pin), pin);
  }

  lemma {:induction false} WithoutAbsent(users: seq<User>, pin: string)
    requires !Has(users, pin)
    ensures Without(users, pin) == users
  {
    if users != [] {
      WithoutAbsent(users[1..], pin);
    }
  }

  lemma SoundTail(users: seq<User>)
    requires users != [] && Sound(users)
    ensures Sound(users[1..]) && !Has(users[1..], users[0].userId)
    ensures forall u :: u in users[1..] ==> u.userId != users[0].userId && u.uid != users[0].uid
  {
    var tail := users[1..];
    assert forall j :: 0 <= j < |tail| ==> tail[j] == users[j + 1];
    HasIff(tail, users[0].userId);
  }

  lemma SoundCons(u: User, tail: seq<User>)
    requires Sound(tail)
    requires forall v :: v in tail ==> v.userId != u.userId && v.uid != u.uid
    ensures Sound([u] + tail)
  {
    var users := [u] + tail;
    forall j | 1 <= j < |users|
      ensures users[j] == tail[j - 1] && users[j] in tail
    {
    }
  }

  lemma {:induction false} WithoutSound(users: seq<User>, pin: string)
    requires Sound(users)
    ensures Sound(Without(users, pin))
  {
    hide Sound;
    if users == [] {
      assert Without(users, pin) == users;
    } else {
      SoundTail(users);
      WithoutSound(users[1..], pin);
      WithoutMembers(users[1..], pin);
      if users[0].userId != pin {
        SoundCons(users[0], Without(users[1..], pin));
      }
    }
  }

  /** Removing a PIN that occurs once removes one user. */
  lemma {:induction false} WithoutCount(users: seq<User>, pin: string)
    requires Sound(users)
    ensures |Without(users, pin)| == |users| - (if Has(users, pin) then 1 else 0)
  {
    hide Sound;
    if users != [] {
      SoundTail(users);
      WithoutCount(users[1..], pin);
    }
  }

  lemma SoundAppend(users: seq<User>, u: User)
    requires Sound(users) && !Has(users, u.userId)
    requires forall v :: v in users ==> v.uid != u.uid
    ensures Sound(users + [u])
  {
    assert forall i :: 0 <= i < |users| ==> users[i] in users;
  }

  lemma SoundSameIds(before: seq<User>, after: seq<User>)
    requires Sound(before) && |after| == |before|
    requires forall i :: 0 <= i < |before| ==> after[i].uid == before[i].uid && after[i].userId == before[i].userId
    ensures Sound(after)
  {
  }

  // ---------------------------------------------------------------------------
  // create and delete
  // ---------------------------------------------------------------------------

  datatype CreateResult = Created(pin: string) | Required | TooLong | AlreadyExists

  /** `create_device_user` on a simulated reader. */
  function CreateOutcome(users: seq<User>, userId: string, name: string): CreateResult {
    var pin := Strip(userId);
    if pin == [] || Strip(name) == [] then Required
    else if |pin| > 24 then TooLong
    else if Has(users, pin) then AlreadyExists
    else Created(pin)
  }

  function AfterCreate(users: seq<User>, userId: string, name: string, privilege: int, password: string, card: int): seq<User> {
    match CreateOutcome(users, userId, name)
    case Created(pin) =>
      users + [User(NextUid(users), pin, Strip(name), if privilege == 14 then 14 else 0, password, "1", card, [])]
    case _ => users
  }

  /** `delete_device_user_simulated`; wiping only the fingers touches the first user with the PIN. */
  function AfterDelete(users: seq<User>, pin: string, biometricsOnly: bool): seq<User> {
    if !Has(users, pin) then users
    else if biometricsOnly then users[Find(users, pin) := users[Find(users, pin)].(fingers := [])]
    else Without(users, pin)
  }

  function AfterBatchDelete(users: seq<User>, pins: seq<string>, biometricsOnly: bool): seq<User>
    decreases |pins|
  {
    if pins == [] then users
    else AfterBatchDelete(AfterDelete(users, pins[0], biometricsOnly), pins[1..], biometricsOnly)
  }

  /** How many of the requests reported `deleted`. */
  function DeletedCount(users: seq<User>, pins: seq<string>, biometricsOnly: bool): nat
    decreases |pins|
  {
    if pins == [] then 0
    else
      var rest := DeletedCount(AfterDelete(users, pins[0], biometricsOnly), pins[1..], biometricsOnly);
      if Has(users, pins[0]) then rest + 1 else rest
  }

  function WithoutAll(users: seq<User>, pins: seq<string>): seq<User> {
    if users == [] then []
    else if users[0].userId in pins then WithoutAll(users[1..], pins)
    else [users[0]] + WithoutAll(users[1..], pins)
  }

  lemma {:induction false} WithoutMore(users: seq<User>, pins: seq<string>)
    requires pins != []
    ensures WithoutAll(Without(users, pins[0]), pins[1..]) == WithoutAll(users, pins)
  {
    assert pins == [pins[0]] + pins[1..];
    if users != [] {
      WithoutMore(users[1..], pins);
    }
  }

  lemma {:induction false} WithoutNone(users: seq<User>)
    ensures WithoutAll(users, []) == users
  {
    if users != [] {
      WithoutNone(users[1..]);
    }
  }

  /**
   * A full batch delete leaves exactly the users whose PIN was not requested, in their order, and its
   * count is the drop in head count however often an id is repeated.
   */
  lemma {:induction false} BatchDeleteIsExact(users: seq<User>, pins: seq<string>)
    requires Sound(users)
    ensures AfterBatchDelete(users, pins, false) == WithoutAll(users, pins)
    ensures DeletedCount(users, pins, false) == |users| - |WithoutAll(users, pins)|
    decreases |pins|
  {
    hide Sound, Has;
    if pins == [] {
      WithoutNone(users);
    } else {
      WithoutSound(users, pins[0]);
      if !Has(users, pins[0]) {
        WithoutAbsent(users, pins[0]);
      }
      WithoutCount(users, pins[0]);
      WithoutMore(users, pins);
      BatchDeleteIsExact(Without(users, pins[0]), pins[1..]);
    }
  }

  lemma {:induction false} WithoutAllMembers(users: seq<User>, pins: seq<string>)
    ensures forall u :: u in WithoutAll(users, pins) <==> u in users && u.userId !in pins
  {
    if users != [] {
      WithoutAllMembers(users[1..], pins);
      assert users == [users[0]] + users[1..];
    }
  }

  function Requested(users: seq<User>, pins: seq<string>): nat {
    if pins == [] then 0
    else if Has(users, pins[0]) then 1 + Requested(users, pins[1..])
    else Requested(users, pins[1..])
  }

  /**
   * Wiping only the fingers changes nothing but the fingers of the requested users, and its count is
   * per request: an id asked for twice counts twice.
   */
  lemma {:induction false} BatchWipeIsExact(users: seq<User>, pins: seq<string>)
    requires Sound(users)
    ensures var after := AfterBatchDelete(users, pins, true);
      && |after| == |users|
      && forall i :: 0 <= i < |users| ==>
           after[i] == if users[i].userId in pins then users[i].(fingers := []) else users[i]
    ensures DeletedCount(users, pins, true) == Requested(users, pins)
    decreases |pins|
  {
    hide Sound, Has, AfterDelete;
    if pins != [] {
      var next := AfterDelete(users, pins[0], true);
      WipeOne(users, pins[0]);
      DeleteKeepsSound(users, pins[0], true);
      BatchWipeIsExact(next, pins[1..]);
      SameIdsRequested(users, next, pins[1..]);
      assert pins == [pins[0]] + pins[1..];
    }
  }

  lemma WipeOne(users: seq<User>, pin: string)
    requires Sound(users)
    ensures var next := AfterDelete(users, pin, true);
      && |next| == |users|
      && forall i :: 0 <= i < |users| ==>
           next[i] == if users[i].userId == pin then users[i].(fingers := []) else users[i]
  {
  }

  lemma {:induction false} SameIdsRequested(a: seq<User>, b: seq<User>, pins: seq<string>)
    requires |a| == |b| && forall i :: 0 <= i < |a| ==> a[i].userId == b[i].userId
    ensures Requested(a, pins) == Requested(b, pins)
  {
    if pins != [] {
      SameIdsRequested(a, b, pins[1..]);
      assert Has(a, pins[0]) == Has(b, pins[0]);
    }
  }

  /** A profile is created exactly under a stripped PIN of 1 to 24 characters that nobody has, with a name that is not blank. */
  lemma CreateSpec(users: seq<User>, userId: string, name: string, privilege: int, password: string, card: int)
    ensures var pin, after := Strip(userId), AfterCreate(users, userId, name, privilege, password, card);
      if 1 <= |pin| <= 24 && Strip(name) != [] && !Has(users, pin)
      then
        && CreateOutcome(users, userId, name) == Created(pin)
        && |after| == |users| + 1 && after[..|users|] == users
        && Find(after, pin) == |users| && (forall u :: u in users ==> u.uid != after[|users|].uid)
        && ProfileOf(after[|users|]) == Profile(Strip(name), if privilege == 14 then 14 else 0, password, "1", card, [])
      else !CreateOutcome(users, userId, name).Created? && after == users
  {
    hide Strip;
    var pin, after := Strip(userId), AfterCreate(users, userId, name, privilege, password, card);
    if CreateOutcome(users, userId, name).Created? {
      FindIs(after, pin, |users|);
    }
  }

  lemma CreateKeepsSound(users: seq<User>, userId: string, name: string, privilege: int, password: string, card: int)
    requires Sound(users)
    ensures Sound(AfterCreate(users, userId, name, privilege, password, card))
  {
    hide Sound, Strip;
    if CreateOutcome(users, userId, name).Created? {
      SoundAppend(users, User(NextUid(users), Strip(userId), Strip(name), if privilege == 14 then 14 else 0, password, "1", card, []));
    }
  }

  lemma DeleteKeepsSound(users: seq<User>, pin: string, biometricsOnly: bool)
    requires Sound(users)
    ensures Sound(AfterDelete(users, pin, biometricsOnly))
  {
    hide Sound;
    WithoutSound(users, pin);
    SoundSameIds(users, if Has(users, pin) then users[Find(users, pin) := users[Find(users, pin)].(fingers := [])] else users);
  }

  lemma {:induction false} BatchDeleteKeepsSound(users: seq<User>, pins: seq<string>, biometricsOnly: bool)
    requires Sound(users)
    ensures Sound(AfterBatchDelete(users, pins, biometricsOnly))
    decreases |pins|
  {
    hide Sound;
    if pins != [] {
      DeleteKeepsSound(users, pins[0], biometricsOnly);
      BatchDeleteKeepsSound(AfterDelete(users, pins[0], biometricsOnly), pins[1..], biometricsOnly);
    }
  }
}
