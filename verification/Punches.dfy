/** models.py: one punch, and the spool line it is written as. */
module Punches {
  import opened Text
  import opened Times
  import opened Json

  datatype Punch = Punch(
    deviceSerial: string,
    deviceUserId: string,
    deviceTime: Moment,
    punchState: int,
    verifyMode: Option<int>,
    workCode: Option<string>,
    userName: Option<string>,
    deviceId: Option<int>,
    rawPayload: Option<string>)

  /** The triple of the database's unique constraint. */
  type Key = (string, string, Moment)

  function KeyOf(p: Punch): Key {
    (p.deviceSerial, p.deviceUserId, p.deviceTime)
  }

  function Keys(ps: seq<Punch>): set<Key> {
    set p | p in ps :: KeyOf(p)
  }

  // ---------------------------------------------------------------------------
  // to_json
  // ---------------------------------------------------------------------------

  function TextOrNull(v: Option<string>): Json {
    match v case None => Null case Some(s) => Str(s)
  }

  function IntOrNull(v: Option<int>): Json {
    match v case None => Null case Some(i) => Int(i)
  }

  function Members(p: Punch): (ms: seq<(string, Json)>)
    ensures ms != [] && FlatMembers(ms)
  {
    [("device_serial", Str(p.deviceSerial)),
     ("device_user_id", Str(p.deviceUserId)),
     ("device_time", Str(Print(Items(Dashed), p.deviceTime))),
     ("punch_state", Int(p.punchState)),
     ("verify_mode", IntOrNull(p.verifyMode)),
     ("work_code", TextOrNull(p.workCode)),
     ("device_user_name", TextOrNull(p.userName)),
     ("device_id", IntOrNull(p.deviceId)),
     ("raw_payload", TextOrNull(p.rawPayload))]
  }

  function ToJson(p: Punch): string {
    DumpObject(Members(p))
  }

  // ---------------------------------------------------------------------------
  // from_json
  // ---------------------------------------------------------------------------

  /**
   * What reading one spool line comes to: a punch, a line that `drain` skips (ValueError or
   * KeyError), or an exception that `drain` does not catch.
   */
  datatype Line = Good(punch: Punch) | Bad | Raises

  datatype Read<+T> = Value(v: T) | WrongType

  function OptionalText(v: Option<Json>): Read<Option<string>> {
    match v
    case None => Value(None)
    case Some(Null) => Value(None)
    case Some(Str(s)) => Value(Some(s))
    case Some(_) => WrongType
  }

  function OptionalInt(v: Option<Json>): Read<Option<int>> {
    match v
    case None => Value(None)
    case Some(Null) => Value(None)
    case Some(Int(i)) => Value(Some(i))
    case Some(_) => WrongType
  }

  /** `int(raw.get("punch_state") or 0)`; None is ValueError. */
  function StateOf(v: Option<Json>): Read<Option<int>> {
    match v
    case None => Value(Some(0))
    case Some(Null) => Value(Some(0))
    case Some(Bool(b)) => Value(Some(if b then 1 else 0))
    case Some(Int(i)) => Value(Some(i))
    case Some(Str(s)) => Value(if s == [] then Some(0) else PyInt(s))
    case Some(_) => WrongType
  }

  /** `str(raw["device_user_id"])` for the types a PIN is written with. */
  function PinOf(v: Json): Read<string> {
    match v
    case Str(s) => Value(s)
    case Int(i) => Value(IntText(i))
    case _ => WrongType
  }

  function FromMembers(ms: seq<(string, Json)>): Line {
    var serial, pin, time := Lookup(ms, "device_serial"), Lookup(ms, "device_user_id"), Lookup(ms, "device_time");
    if serial == None || pin == None || time == None then Bad
    else if !time.value.Str? then Raises
    else FromTimed(ms, serial.value, pin.value, Strptime(Dashed, time.value.s))
  }

  function FromTimed(ms: seq<(string, Json)>, serial: Json, pin: Json, moment: Option<Moment>): Line {
    var state := StateOf(Lookup(ms, "punch_state"));
    if moment == None || state == Value(None) then Bad
    else FromFields(serial, PinOf(pin), moment.value, state,
                    OptionalInt(Lookup(ms, "verify_mode")), OptionalText(Lookup(ms, "work_code")),
                    OptionalText(Lookup(ms, "device_user_name")), OptionalInt(Lookup(ms, "device_id")),
                    OptionalText(Lookup(ms, "raw_payload")))
  }

  function FromFields(serial: Json, pin: Read<string>, moment: Moment, state: Read<Option<int>>,
                      verify: Read<Option<int>>, work: Read<Option<string>>, name: Read<Option<string>>,
                      device: Read<Option<int>>, payload: Read<Option<string>>): Line {
    if serial.Str? && pin.Value? && state.Value? && state.v.Some? && verify.Value? && work.Value?
       && name.Value? && device.Value? && payload.Value?
    then Good(Punch(serial.s, pin.v, moment, state.v.value, verify.v, work.v, name.v, device.v, payload.v))
    else Raises
  }

  function FromJson(line: string): Line {
    match Loads(line)
    case None => Bad
    case Some(Obj(ms)) => FromMembers(ms)
    case Some(_) => Raises
  }

  // ---------------------------------------------------------------------------
  // The printer and the parser undo each other
  // ---------------------------------------------------------------------------

  lemma LookupAt(ms: seq<(string, Json)>, k: nat)
    requires k < |ms| && forall i :: k < i < |ms| ==> ms[i].0 != ms[k].0
    ensures Lookup(ms, ms[k].0) == Some(ms[k].1)
  {
    if k < |ms| - 1 {
      LookupAt(ms[..|ms| - 1], k);
    }
  }

  const FIELDS: seq<string> :=
    ["device_serial", "device_user_id", "device_time", "punch_state", "verify_mode",
     "work_code", "device_user_name", "device_id", "raw_payload"]

  lemma FieldsDiffer(i: nat, j: nat)
    requires i < j < 9
    ensures FIELDS[i] != FIELDS[j]
  {
    assert FIELDS[0][7] == 's' && FIELDS[1][7] == 'u' && FIELDS[2][7] == 't';
    assert |FIELDS[3]| == |FIELDS[4]| == |FIELDS[8]| == 11;
    assert FIELDS[3][0] == 'p' && FIELDS[4][0] == 'v' && FIELDS[8][0] == 'r';
    assert |FIELDS[0]| == 13 && |FIELDS[1]| == 14 && |FIELDS[2]| == 11 && FIELDS[2][0] == 'd';
    assert |FIELDS[5]| == |FIELDS[7]| == 9 && FIELDS[5][0] == 'w' && FIELDS[7][0] == 'd';
    assert |FIELDS[6]| == 16;
  }

  lemma MemberFound(p: Punch, k: nat)
    requires k < 9
    ensures Lookup(Members(p), FIELDS[k]) == Some(Members(p)[k].1)
  {
    var ms := Members(p);
    assert forall i :: 0 <= i < 9 ==> ms[i].0 == FIELDS[i];
    forall i | k < i < 9 ensures ms[i].0 != ms[k].0 {
      FieldsDiffer(k, i);
    }
    LookupAt(ms, k);
  }

  lemma TimedFieldsRead(ms: seq<(string, Json)>, p: Punch)
    requires Lookup(ms, "punch_state") == Some(Int(p.punchState))
    requires Lookup(ms, "verify_mode") == Some(IntOrNull(p.verifyMode))
    requires Lookup(ms, "work_code") == Some(TextOrNull(p.workCode))
    requires Lookup(ms, "device_user_name") == Some(TextOrNull(p.userName))
    requires Lookup(ms, "device_id") == Some(IntOrNull(p.deviceId))
    requires Lookup(ms, "raw_payload") == Some(TextOrNull(p.rawPayload))
    ensures FromTimed(ms, Str(p.deviceSerial), Str(p.deviceUserId), Some(p.deviceTime)) == Good(p)
  {
  }

  lemma KeyFieldsRead(ms: seq<(string, Json)>, p: Punch, stamp: string)
    requires Lookup(ms, "device_serial") == Some(Str(p.deviceSerial))
    requires Lookup(ms, "device_user_id") == Some(Str(p.deviceUserId))
    requires Lookup(ms, "device_time") == Some(Str(stamp))
    ensures FromMembers(ms)
         == FromTimed(ms, Str(p.deviceSerial), Str(p.deviceUserId), Strptime(Dashed, stamp))
  {
  }

  lemma MembersRead(p: Punch)
    ensures FromMembers(Members(p)) == Good(p)
  {
    var ms := Members(p);
    forall k | 0 <= k < 9 ensures Lookup(ms, FIELDS[k]) == Some(ms[k].1) {
      MemberFound(p, k);
    }
    assert FIELDS[0] == "device_serial" && FIELDS[1] == "device_user_id" && FIELDS[2] == "device_time";
    assert FIELDS[3] == "punch_state" && FIELDS[4] == "verify_mode" && FIELDS[5] == "work_code";
    assert FIELDS[6] == "device_user_name" && FIELDS[7] == "device_id" && FIELDS[8] == "raw_payload";
    KeyFieldsRead(ms, p, Print(Items(Dashed), p.deviceTime));
    TimedFieldsRead(ms, p);
    PrintedTimeIsRead(Dashed, p.deviceTime);
  }

  lemma ObjectLine(ms: seq<(string, Json)>)
    requires ms != [] && FlatMembers(ms)
    ensures FromJson(DumpObject(ms)) == FromMembers(ms)
  {
    ObjectReads(ms);
  }

  /** A punch that went to disk comes back identical. */
  lemma SpoolLineReadsBack(p: Punch)
    ensures FromJson(ToJson(p)) == Good(p)
  {
    MembersRead(p);
    ObjectLine(Members(p));
  }

  /** Two punches never share a spool line. */
  lemma SpoolLineIsUnique(p: Punch, q: Punch)
    requires ToJson(p) == ToJson(q)
    ensures p == q
  {
    SpoolLineReadsBack(p);
    SpoolLineReadsBack(q);
  }

  /** The printed form is one line of printable ASCII that `strip` leaves alone. */
  lemma SpoolLineIsPlain(p: Punch)
    ensures Ascii(ToJson(p)) && '\n' !in ToJson(p) && '\r' !in ToJson(p)
    ensures ToJson(p) != [] && Strip(ToJson(p)) == ToJson(p)
  {
    ObjectIsPlain(Members(p));
  }

  /** A spool line cut anywhere before its closing brace is skipped. */
  lemma TornSpoolLineIsSkipped(p: Punch, n: nat)
    requires n < |ToJson(p)|
    ensures FromJson(Strip(ToJson(p)[..n])) == Bad
  {
    TornObjectFails(Members(p), n);
  }

  // ---------------------------------------------------------------------------
  // Lines that were not written whole
  // ---------------------------------------------------------------------------

  /**
   * A line is skipped exactly when it is no JSON text, or an object that lacks one of three keys, or
   * whose time is a text that is no time, or whose state is a non-empty text that is no integer.
   */
  lemma SkippedExactly(line: string)
    ensures FromJson(line) == Bad <==>
      || Loads(line) == None
      || (Loads(line).value.Obj?
          && var ms := Loads(line).value.members;
          var time, state := Lookup(ms, "device_time"), Lookup(ms, "punch_state");
          || Lookup(ms, "device_serial") == None || Lookup(ms, "device_user_id") == None || time == None
          || (time.value.Str?
              && (|| Strptime(Dashed, time.value.s) == None
                  || (state.Some? && state.value.Str? && state.value.s != [] && PyInt(state.value.s) == None))))
  {
    hide Loads, Lookup, Strptime, PyInt;
  }

  /** The fields that may be absent, or null: no state is state zero, and the others are absent. */
  lemma AbsentFieldsDefault(line: string, serial: string, pin: string, t: Moment, nulls: bool)
    requires Loads(line).Some? && Loads(line).value.Obj?
    requires var ms := Loads(line).value.members;
      && Lookup(ms, "device_serial") == Some(Str(serial)) && Lookup(ms, "device_user_id") == Some(Str(pin))
      && Lookup(ms, "device_time") == Some(Str(Print(Items(Dashed), t)))
    requires var ms := Loads(line).value.members;
      var missing := if nulls then Some(Null) else None;
      && Lookup(ms, "punch_state") == missing && Lookup(ms, "verify_mode") == missing && Lookup(ms, "work_code") == missing
      && Lookup(ms, "device_user_name") == missing && Lookup(ms, "device_id") == missing && Lookup(ms, "raw_payload") == missing
    ensures FromJson(line) == Good(Punch(serial, pin, t, 0, None, None, None, None, None))
  {
    hide Loads, Lookup, Strptime, Print;
    PrintedTimeIsRead(Dashed, t);
  }

  /** A PIN that was written as a number reads as its digits. */
  lemma NumberPinReads(line: string, serial: string, pin: int, t: Moment)
    requires Loads(line).Some? && Loads(line).value.Obj?
    requires var ms := Loads(line).value.members;
      && Lookup(ms, "device_serial") == Some(Str(serial)) && Lookup(ms, "device_user_id") == Some(Int(pin))
      && Lookup(ms, "device_time") == Some(Str(Print(Items(Dashed), t)))
      && Lookup(ms, "punch_state") == None && Lookup(ms, "verify_mode") == None && Lookup(ms, "work_code") == None
      && Lookup(ms, "device_user_name") == None && Lookup(ms, "device_id") == None && Lookup(ms, "raw_payload") == None
    ensures FromJson(line) == Good(Punch(serial, IntText(pin), t, 0, None, None, None, None, None))
  {
    hide Loads, Lookup, Strptime, Print, IntText;
    PrintedTimeIsRead(Dashed, t);
  }
}
