/** The motor configuration file: what parse() accepts, and that it reports every problem.

    Parsing starts from the loaded YAML document, a tree of mappings and scalars.
 */
module MotorConfig {
  import opened Numbers

  const WHEEL_JOINTS := ["wheel_joint_left", "wheel_joint_right"]
  const GIZMO_JOINTS := ["gizmo_yaw_joint", "gizmo_pitch_joint"]
  const JOINTS := WHEEL_JOINTS + GIZMO_JOINTS
  const MIN_CAN_ID := 1
  const MAX_CAN_ID := 254
  const KEYS := ["can_id", "direction", "zero_on_start"]

  datatype Entry = Entry(key: string, value: Yaml)

  // Scalar stands for texts, floats, dates and lists alike
  datatype Yaml = Null | Bool(b: bool) | Int(n: int) | Scalar | Mapping(entries: seq<Entry>)

  datatype Motor = Motor(joint: string, canId: nat, direction: int, zeroOnStart: bool)

  datatype Problem =
    | UnknownTopKey(key: string)
    | UnknownJoint(joint: string)
    | NotAMapping(joint: string)
    | UnknownKey(joint: string, key: string)
    | BadCanId(joint: string)
    | BadDirection(joint: string)
    | BadZeroOnStart(joint: string)
    | NoEntry(joint: string)
    | SharedId(canId: nat, first: string, second: string)

  datatype Outcome =
    | DuplicateKey
    | NoMotorsMapping
    | Invalid(problems: seq<Problem>)
    | Ok(motors: seq<Motor>)

  // Mappings --------------------------------------------------------------------------

  predicate NoKeyTwice(entries: seq<Entry>) {
    forall i, k :: 0 <= i < k < |entries| ==> entries[i].key != entries[k].key
  }

  /** What the loader insists on, everywhere in the document. */
  predicate UniqueKeys(y: Yaml) {
    y.Mapping? ==> NoKeyTwice(y.entries) && forall i :: 0 <= i < |y.entries| ==> UniqueKeys(y.entries[i].value)
  }

  function Get(entries: seq<Entry>, key: string): Option<Yaml> {
    if entries == [] then None
    else if entries[0].key == key then Some(entries[0].value)
    else Get(entries[1..], key)
  }

  predicate HasKey(entries: seq<Entry>, key: string) {
    exists i :: 0 <= i < |entries| && entries[i].key == key
  }

  lemma {:induction false} GetFinds(entries: seq<Entry>, key: string)
    ensures Get(entries, key).Some? <==> HasKey(entries, key)
    ensures forall i :: NoKeyTwice(entries) && 0 <= i < |entries| && entries[i].key == key ==>
              Get(entries, key) == Some(entries[i].value)
  {
    if entries != [] {
      GetFinds(entries[1..], key);
      if HasKey(entries, key) && entries[0].key != key {
        var i :| 0 <= i < |entries| && entries[i].key == key;
        assert entries[1..][i - 1].key == key;
      }
      if entries[0].key != key && HasKey(entries[1..], key) {
        var i :| 0 <= i < |entries| - 1 && entries[1..][i].key == key;
        assert entries[i + 1].key == key;
      }
      forall i | NoKeyTwice(entries) && 0 <= i < |entries| && entries[i].key == key
        ensures Get(entries, key) == Some(entries[i].value)
      {
        if i > 0 {
          assert entries[1..][i - 1] == entries[i];
        }
      }
    }
  }

  // What is wrong with a file -----------------------------------------------------------

  predicate GoodCanId(v: Option<Yaml>) {
    v.Some? && v.value.Int? && MIN_CAN_ID <= v.value.n <= MAX_CAN_ID
  }

  predicate GoodDirection(v: Option<Yaml>) {
    v.Some? && v.value.Int? && v.value.n in {1, -1}
  }

  predicate GoodZeroOnStart(joint: string, v: Option<Yaml>) {
    v.None? || (v.value.Bool? && (v.value.b ==> joint in GIZMO_JOINTS))
  }

  /** The problems of one entry of a known joint. */
  ghost predicate EntryProblem(joint: string, entry: Yaml, p: Problem) {
    if !entry.Mapping? then p == NotAMapping(joint)
    else
      || (p.UnknownKey? && p.joint == joint && HasKey(entry.entries, p.key) && p.key !in KEYS)
      || (p == BadCanId(joint) && !GoodCanId(Get(entry.entries, "can_id")))
      || (p == BadDirection(joint) && !GoodDirection(Get(entry.entries, "direction")))
      || (p == BadZeroOnStart(joint) && !GoodZeroOnStart(joint, Get(entry.entries, "zero_on_start")))
  }

  predicate GoodEntry(joint: string, entry: Yaml) {
    && entry.Mapping?
    && (forall i :: 0 <= i < |entry.entries| ==> entry.entries[i].key in KEYS)
    && GoodCanId(Get(entry.entries, "can_id"))
    && GoodDirection(Get(entry.entries, "direction"))
    && GoodZeroOnStart(joint, Get(entry.entries, "zero_on_start"))
  }

  function MotorOf(joint: string, entry: Yaml): Motor
    requires GoodEntry(joint, entry)
  {
    var zero := Get(entry.entries, "zero_on_start");
    Motor(joint, Get(entry.entries, "can_id").value.n, Get(entry.entries, "direction").value.n,
          zero.Some? && zero.value.b)
  }

  /** The motors of the good entries of known joints, in file order. */
  function Motors(entries: seq<Entry>): seq<Motor> {
    if entries == [] then []
    else
      var before, e := Motors(entries[..|entries| - 1]), entries[|entries| - 1];
      if e.key in JOINTS && GoodEntry(e.key, e.value) then before + [MotorOf(e.key, e.value)] else before
  }

  /** Motor k repeats the ID of motor i, the first one to have it. */
  ghost predicate Shares(motors: seq<Motor>, i: int, k: int) {
    && 0 <= i < k < |motors| && motors[i].canId == motors[k].canId
    && forall h :: 0 <= h < i ==> motors[h].canId != motors[k].canId
  }

  ghost predicate SharesAt(motors: seq<Motor>, k: int, p: Problem) {
    exists i :: Shares(motors, i, k) && p == SharedId(motors[k].canId, motors[i].joint, motors[k].joint)
  }

  /** ... among the first n motors. */
  ghost predicate SharingProblem(motors: seq<Motor>, n: int, p: Problem) {
    exists k :: 0 <= k < n && SharesAt(motors, k, p)
  }

  ghost predicate JointProblem(entries: seq<Entry>, p: Problem) {
    exists i :: 0 <= i < |entries| && ProblemOf(entries[i], p)
  }

  ghost predicate ProblemOf(e: Entry, p: Problem) {
    if e.key in JOINTS then EntryProblem(e.key, e.value, p) else p == UnknownJoint(e.key)
  }

  function Required(requireGizmo: bool): seq<string> {
    if requireGizmo then JOINTS else WHEEL_JOINTS
  }

  /** Everything that can be wrong with a document that has a motors mapping. */
  ghost predicate HasProblem(top: seq<Entry>, entries: seq<Entry>, requireGizmo: bool, p: Problem) {
    || (p.UnknownTopKey? && HasKey(top, p.key) && p.key != "motors")
    || JointProblem(entries, p)
    || (p.NoEntry? && p.joint in Required(requireGizmo) && !HasKey(entries, p.joint))
    || SharingProblem(Motors(entries), |Motors(entries)|, p)
  }

  /** data["motors"], if the document is a mapping that has one. */
  function MotorsOf(document: Yaml): Option<seq<Entry>> {
    if !document.Mapping? then None
    else
      var motors := Get(document.entries, "motors");
      if motors.Some? && motors.value.Mapping? then Some(motors.value.entries) else None
  }

  /** A document without any problem. */
  ghost predicate Good(document: Yaml, requireGizmo: bool) {
    && UniqueKeys(document) && MotorsOf(document).Some?
    && forall p :: !HasProblem(document.entries, MotorsOf(document).value, requireGizmo, p)
  }

  // Parsing --------------------------------------------------------------------------------

  method UnknownKeys(joint: string, entries: seq<Entry>) returns (errors: seq<Problem>)
    ensures forall p :: p in errors <==>
              p.UnknownKey? && p.joint == joint && HasKey(entries, p.key) && p.key !in KEYS
    ensures errors == [] <==> forall i :: 0 <= i < |entries| ==> entries[i].key in KEYS
  {
    errors := [];
    for n := 0 to |entries|
      invariant forall p :: p in errors <==>
                  p.UnknownKey? && p.joint == joint && HasKey(entries[..n], p.key) && p.key !in KEYS
      invariant errors == [] <==> forall i :: 0 <= i < n ==> entries[i].key in KEYS
    {
      KeysGrow(entries, n);
      if entries[n].key !in KEYS {
        errors := errors + [UnknownKey(joint, entries[n].key)];
      }
    }
    assert entries[..|entries|] == entries;
  }

  lemma KeysGrow(entries: seq<Entry>, n: nat)
    requires n < |entries|
    ensures forall key :: HasKey(entries[..n + 1], key) <==> HasKey(entries[..n], key) || key == entries[n].key
  {
    forall key ensures HasKey(entries[..n + 1], key) <==> HasKey(entries[..n], key) || key == entries[n].key {
      if HasKey(entries[..n], key) {
        var i :| 0 <= i < n && entries[..n][i].key == key;
        assert entries[..n + 1][i].key == key;
      }
      if HasKey(entries[..n + 1], key) {
        var i :| 0 <= i < n + 1 && entries[..n + 1][i].key == key;
        assert i < n ==> entries[..n][i].key == key;
      }
      assert entries[..n + 1][n] == entries[n];
    }
  }

  method ParseMotor(joint: string, entry: Yaml) returns (motor: Option<Motor>, errors: seq<Problem>)
    ensures forall p :: p in errors <==> EntryProblem(joint, entry, p)
    ensures motor == if GoodEntry(joint, entry) then Some(MotorOf(joint, entry)) else None
  {
    if !entry.Mapping? {
      return None, [NotAMapping(joint)];
    }
    var entries := entry.entries;
    errors := UnknownKeys(joint, entries);
    var canId := Get(entries, "can_id");
    if !GoodCanId(canId) {
      errors := errors + [BadCanId(joint)];
    }
    var direction := Get(entries, "direction");
    if !GoodDirection(direction) {
      errors := errors + [BadDirection(joint)];
    }
    var zero := Get(entries, "zero_on_start");
    if !GoodZeroOnStart(joint, zero) {
      errors := errors + [BadZeroOnStart(joint)];
    }
    if |errors| > 0 {
      motor := None;
    } else {
      motor := Some(Motor(joint, canId.value.n, direction.value.n, zero.Some? && zero.value.b));
    }
  }

  method ParseJoints(entries: seq<Entry>) returns (motors: seq<Motor>, errors: seq<Problem>)
    ensures motors == Motors(entries)
    ensures forall p :: p in errors <==> JointProblem(entries, p)
  {
    motors, errors := [], [];
    for n := 0 to |entries|
      invariant motors == Motors(entries[..n])
      invariant forall p :: p in errors <==> JointProblem(entries[..n], p)
    {
      assert entries[..n + 1][..n] == entries[..n];
      JointProblemsGrow(entries, n);
      var e := entries[n];
      if e.key !in JOINTS {
        errors := errors + [UnknownJoint(e.key)];
      } else {
        var motor, found := ParseMotor(e.key, e.value);
        errors := errors + found;
        if motor.Some? {
          motors := motors + [motor.value];
        }
      }
    }
    assert entries[..|entries|] == entries;
  }

  lemma JointProblemsGrow(entries: seq<Entry>, n: nat)
    requires n < |entries|
    ensures forall p :: JointProblem(entries[..n + 1], p) <==>
                        JointProblem(entries[..n], p) || ProblemOf(entries[n], p)
  {
    hide EntryProblem;
    var longer, shorter := entries[..n + 1], entries[..n];
    forall p ensures JointProblem(longer, p) <==> JointProblem(shorter, p) || ProblemOf(entries[n], p) {
      if i :| 0 <= i < n && ProblemOf(shorter[i], p) {
        assert ProblemOf(longer[i], p);
      }
      if i :| 0 <= i < n + 1 && ProblemOf(longer[i], p) {
        assert i < n ==> ProblemOf(shorter[i], p);
      }
      assert longer[n] == entries[n];
    }
  }

  /** The last loop of parse(), which fills a dictionary of the IDs seen so far. */
  method FindSharedIds(motors: seq<Motor>) returns (errors: seq<Problem>)
    ensures forall p :: p in errors <==> SharingProblem(motors, |motors|, p)
  {
    var byId: map<nat, string> := map[];
    errors := [];
    // The first motor of each ID in the dictionary
    ghost var firsts: map<nat, nat> := map[];
    assert forall p :: !SharingProblem(motors, 0, p);
    hide SharingProblem;
    hide SharesAt;
    hide Knows;
    NothingKnown(motors);
    for n := 0 to |motors|
      invariant Knows(motors, n, byId, firsts)
      invariant forall p :: p in errors <==> SharingProblem(motors, n, p)
    {
      var id, next := motors[n].canId, n + 1;
      SharingGrows(motors, n, next);
      KnowsMore(motors, n, next, byId, firsts);
      if id in byId {
        errors := errors + [SharedId(id, byId[id], motors[n].joint)];
      } else {
        byId, firsts := byId[id := motors[n].joint], firsts[id := n];
      }
    }
  }

  /** The dictionary after n motors: for every ID so far, the joint of the first motor with it. */
  ghost predicate Knows(motors: seq<Motor>, n: int, byId: map<nat, string>, firsts: map<nat, nat>) {
    && 0 <= n <= |motors| && byId.Keys == firsts.Keys
    && (forall id :: id in firsts ==> IsFirst(motors, id, firsts[id]) && firsts[id] < n
                                      && byId[id] == motors[firsts[id]].joint)
    && (forall h :: 0 <= h < n ==> motors[h].canId in firsts)
  }

  lemma NothingKnown(motors: seq<Motor>)
    ensures Knows(motors, 0, map[], map[])
  {
  }

  lemma KnowsMore(motors: seq<Motor>, n: nat, next: nat, byId: map<nat, string>, firsts: map<nat, nat>)
    requires n < |motors| && next == n + 1 && Knows(motors, n, byId, firsts)
    ensures var id, joint := motors[n].canId, motors[n].joint;
            if id in byId
            then Knows(motors, next, byId, firsts)
                 && forall p :: SharesAt(motors, n, p) <==> p == SharedId(id, byId[id], joint)
            else Knows(motors, next, byId[id := joint], firsts[id := n]) && forall p :: !SharesAt(motors, n, p)
  {
    hide SharesAt;
    var id := motors[n].canId;
    if id in byId {
      SharesOnce(motors, n, firsts[id]);
    } else {
      SharesNothing(motors, n);
    }
  }

  ghost predicate IsFirst(motors: seq<Motor>, id: nat, i: int) {
    0 <= i < |motors| && motors[i].canId == id && forall h :: 0 <= h < i ==> motors[h].canId != id
  }

  lemma SharingGrows(motors: seq<Motor>, n: nat, next: nat)
    requires next == n + 1
    ensures forall p :: SharingProblem(motors, next, p) <==> SharingProblem(motors, n, p) || SharesAt(motors, n, p)
  {
    hide SharesAt;
  }

  lemma SharesOnce(motors: seq<Motor>, n: nat, first: nat)
    requires n < |motors| && first < n && IsFirst(motors, motors[n].canId, first)
    ensures forall p :: SharesAt(motors, n, p) <==>
                        p == SharedId(motors[n].canId, motors[first].joint, motors[n].joint)
  {
    assert Shares(motors, first, n);
  }

  lemma SharesNothing(motors: seq<Motor>, n: nat)
    requires n < |motors| && forall h :: 0 <= h < n ==> motors[h].canId != motors[n].canId
    ensures forall p :: !SharesAt(motors, n, p)
  {
  }

  method Parse(document: Yaml, requireGizmo: bool) returns (outcome: Outcome)
    ensures outcome.DuplicateKey? <==> !UniqueKeys(document)
    ensures outcome.NoMotorsMapping? <==> UniqueKeys(document) && MotorsOf(document).None?
    ensures outcome.Invalid? || outcome.Ok? ==> MotorsOf(document).Some?
    ensures outcome.Invalid? ==> outcome.problems != [] && forall p ::
              p in outcome.problems <==> HasProblem(document.entries, MotorsOf(document).value, requireGizmo, p)
    ensures outcome.Ok? <==> Good(document, requireGizmo)
    ensures outcome.Ok? ==> outcome.motors == Motors(MotorsOf(document).value)
  {
    if !UniqueKeys(document) {
      return DuplicateKey;
    }
    if !document.Mapping? || !Get(document.entries, "motors").Some? || !Get(document.entries, "motors").value.Mapping? {
      return NoMotorsMapping;
    }
    var top, entries := document.entries, Get(document.entries, "motors").value.entries;
    var topErrors := UnknownTopKeys(top);
    var motors, jointErrors := ParseJoints(entries);
    var missing := MissingEntries(Required(requireGizmo), entries);
    var shared := FindSharedIds(motors);
    var errors := topErrors + jointErrors + missing + shared;
    hide JointProblem;
    hide SharingProblem;
    hide HasKey;
    assert forall p :: p in errors <==> HasProblem(top, entries, requireGizmo, p);
    if errors != [] {
      assert errors[0] in errors;
      return Invalid(errors);
    }
    outcome := Ok(motors);
  }

  method UnknownTopKeys(top: seq<Entry>) returns (errors: seq<Problem>)
    ensures forall p :: p in errors <==> p.UnknownTopKey? && HasKey(top, p.key) && p.key != "motors"
  {
    errors := [];
    for n := 0 to |top|
      invariant forall p :: p in errors <==> p.UnknownTopKey? && HasKey(top[..n], p.key) && p.key != "motors"
    {
      KeysGrow(top, n);
      if top[n].key != "motors" {
        errors := errors + [UnknownTopKey(top[n].key)];
      }
    }
    assert top[..|top|] == top;
  }

  method MissingEntries(required: seq<string>, entries: seq<Entry>) returns (errors: seq<Problem>)
    ensures forall p :: p in errors <==> p.NoEntry? && p.joint in required && !HasKey(entries, p.joint)
  {
    errors := [];
    for n := 0 to |required|
      invariant forall p :: p in errors <==> p.NoEntry? && p.joint in required[..n] && !HasKey(entries, p.joint)
    {
      assert required[..n + 1] == required[..n] + [required[n]];
      GetFinds(entries, required[n]);
      if Get(entries, required[n]).None? {
        errors := errors + [NoEntry(required[n])];
      }
    }
    assert required[..|required|] == required;
  }

  // What a good file gives ------------------------------------------------------------------

  /** MotorConfig.get() */
  function Lookup(motors: seq<Motor>, joint: string): Option<Motor> {
    if motors == [] then None
    else if motors[0].joint == joint then Some(motors[0])
    else Lookup(motors[1..], joint)
  }

  /** MotorConfig.names(): the dictionary of joint names by CAN ID. */
  function Names(motors: seq<Motor>): map<nat, string> {
    if motors == [] then map[]
    else
      var last := motors[|motors| - 1];
      Names(motors[..|motors| - 1])[last.canId := last.joint]
  }

  ghost predicate DistinctIds(motors: seq<Motor>) {
    forall i, k :: 0 <= i < k < |motors| ==> motors[i].canId != motors[k].canId
  }

  ghost predicate DistinctJoints(motors: seq<Motor>) {
    forall i, k :: 0 <= i < k < |motors| ==> motors[i].joint != motors[k].joint
  }

  lemma {:induction false} NoSharingMeansDistinct(motors: seq<Motor>)
    requires forall p :: !SharingProblem(motors, |motors|, p)
    ensures DistinctIds(motors)
  {
    if !DistinctIds(motors) {
      var i, k :| 0 <= i < k < |motors| && motors[i].canId == motors[k].canId;
      var first := FirstOf(motors, i, k);
      var p := SharedId(motors[k].canId, motors[first].joint, motors[k].joint);
      assert Shares(motors, first, k) && SharesAt(motors, k, p);
      assert SharingProblem(motors, |motors|, p);
      assert false;
    }
  }

  lemma {:induction false} FirstOf(motors: seq<Motor>, i: nat, k: nat) returns (first: nat)
    requires i < k < |motors| && motors[i].canId == motors[k].canId
    ensures Shares(motors, first, k)
    decreases i
  {
    if h :| 0 <= h < i && motors[h].canId == motors[k].canId {
      first := FirstOf(motors, h, k);
    } else {
      first := i;
    }
  }

  /** Where a motor of the list comes from. */
  lemma {:induction false} MotorSource(entries: seq<Entry>, i: nat) returns (e: nat)
    requires i < |Motors(entries)|
    ensures e < |entries| && entries[e].key in JOINTS && GoodEntry(entries[e].key, entries[e].value)
    ensures Motors(entries)[i] == MotorOf(entries[e].key, entries[e].value)
    decreases |entries|
  {
    var n := |entries| - 1;
    if i < |Motors(entries[..n])| {
      e := MotorSource(entries[..n], i);
    } else {
      e := n;
    }
  }

  lemma {:induction false} MotorsAreDistinct(entries: seq<Entry>)
    requires NoKeyTwice(entries)
    ensures DistinctJoints(Motors(entries))
  {
    if entries != [] {
      var n := |entries| - 1;
      var before := entries[..n];
      MotorsAreDistinct(before);
      forall i | 0 <= i < |Motors(before)| ensures Motors(before)[i].joint != entries[n].key {
        var e := MotorSource(before, i);
        assert entries[e] == before[e];
      }
    }
  }

  lemma {:induction false} EveryGoodEntryGivesAMotor(entries: seq<Entry>, e: nat)
    requires e < |entries| && entries[e].key in JOINTS && GoodEntry(entries[e].key, entries[e].value)
    ensures MotorOf(entries[e].key, entries[e].value) in Motors(entries)
    decreases |entries|
  {
    var n := |entries| - 1;
    if e < n {
      EveryGoodEntryGivesAMotor(entries[..n], e);
    }
  }

  lemma NoProblemMeansGood(joint: string, entry: Yaml)
    requires forall p :: !EntryProblem(joint, entry, p)
    ensures GoodEntry(joint, entry)
  {
    assert !EntryProblem(joint, entry, NotAMapping(joint));
    assert !EntryProblem(joint, entry, BadCanId(joint));
    assert !EntryProblem(joint, entry, BadDirection(joint));
    assert !EntryProblem(joint, entry, BadZeroOnStart(joint));
    forall i | 0 <= i < |entry.entries| ensures entry.entries[i].key in KEYS {
      assert HasKey(entry.entries, entry.entries[i].key);
      assert !EntryProblem(joint, entry, UnknownKey(joint, entry.entries[i].key));
    }
  }

  lemma {:induction false} GetOfMotor(motors: seq<Motor>, i: nat)
    requires DistinctJoints(motors) && i < |motors|
    ensures Lookup(motors, motors[i].joint) == Some(motors[i])
  {
    if i > 0 {
      var rest := motors[1..];
      assert DistinctJoints(rest) by {
        forall a, b | 0 <= a < b < |rest| ensures rest[a].joint != rest[b].joint {
          assert rest[a] == motors[a + 1] && rest[b] == motors[b + 1];
        }
      }
      GetOfMotor(rest, i - 1);
    }
  }

  lemma {:induction false} NamesMeaning(motors: seq<Motor>)
    requires DistinctIds(motors)
    ensures forall i :: 0 <= i < |motors| ==>
              motors[i].canId in Names(motors) && Names(motors)[motors[i].canId] == motors[i].joint
    ensures forall id :: id in Names(motors) ==> exists i :: 0 <= i < |motors| && motors[i].canId == id
  {
    if motors != [] {
      var n := |motors| - 1;
      var before := motors[..n];
      NamesMeaning(before);
      forall i | 0 <= i < |motors|
        ensures motors[i].canId in Names(motors) && Names(motors)[motors[i].canId] == motors[i].joint
      {
        assert i < n ==> before[i] == motors[i];
      }
      forall id | id in Names(motors) ensures exists i :: 0 <= i < |motors| && motors[i].canId == id {
        if id in Names(before) {
          var i :| 0 <= i < n && before[i].canId == id;
          assert motors[i].canId == id;
        } else {
          assert motors[n].canId == id;
        }
      }
    }
  }

  /** In a good file, every entry gives its motor, IDs are in range, and joints and CAN IDs
      determine each other. */
  lemma JointsAndIdsCorrespond(document: Yaml, requireGizmo: bool)
    requires Good(document, requireGizmo)
    ensures var entries := MotorsOf(document).value;
            var motors := Motors(entries);
            && (forall i :: 0 <= i < |entries| ==>
                  && GoodEntry(entries[i].key, entries[i].value)
                  && Lookup(motors, entries[i].key) == Some(MotorOf(entries[i].key, entries[i].value)))
            && (forall joint :: joint in Required(requireGizmo) ==> HasKey(entries, joint))
            && (forall i :: 0 <= i < |motors| ==>
                  && MIN_CAN_ID <= motors[i].canId <= MAX_CAN_ID
                  && Lookup(motors, motors[i].joint) == Some(motors[i])
                  && motors[i].canId in Names(motors) && Names(motors)[motors[i].canId] == motors[i].joint)
            && (forall id :: id in Names(motors) ==>
                  var m := Lookup(motors, Names(motors)[id]); m.Some? && m.value.canId == id)
  {
    var entries := MotorsOf(document).value;
    var motors := Motors(entries);
    MotorsMappingHasUniqueKeys(document);
    EntriesAreGood(document, requireGizmo);
    MotorsAreDistinct(entries);
    NoSharingMeansDistinct(motors) by {
      forall p ensures !SharingProblem(motors, |motors|, p) {
        assert !HasProblem(document.entries, entries, requireGizmo, p);
      }
    }
    NamesMeaning(motors);
    forall joint | joint in Required(requireGizmo) ensures HasKey(entries, joint) {
      assert !HasProblem(document.entries, entries, requireGizmo, NoEntry(joint));
    }
    forall i | 0 <= i < |motors|
      ensures MIN_CAN_ID <= motors[i].canId <= MAX_CAN_ID && Lookup(motors, motors[i].joint) == Some(motors[i])
    {
      var e := MotorSource(entries, i);
      GetOfMotor(motors, i);
    }
    forall i | 0 <= i < |entries|
      ensures Lookup(motors, entries[i].key) == Some(MotorOf(entries[i].key, entries[i].value))
    {
      EveryGoodEntryGivesAMotor(entries, i);
      var k :| 0 <= k < |motors| && motors[k] == MotorOf(entries[i].key, entries[i].value);
      GetOfMotor(motors, k);
    }
  }

  /** A key of a mapping, whatever is under it. */
  ghost predicate Under(entries: seq<Entry>, key: string, value: Yaml) {
    exists i :: 0 <= i < |entries| && entries[i] == Entry(key, value)
  }

  /** The entries that are accepted, over their keys and values: a CAN ID from 1 to 254, a
      direction of 1 or -1, perhaps a zero flag, which only a gizmo joint may set, and no other
      key. The motor has exactly these values. */
  lemma GoodEntryMeaning(joint: string, entry: Yaml)
    requires UniqueKeys(entry)
    ensures GoodEntry(joint, entry) <==>
            && entry.Mapping?
            && (forall i :: 0 <= i < |entry.entries| ==>
                  match entry.entries[i]
                  case Entry(key, value) =>
                    || (key == "can_id" && value.Int? && 1 <= value.n <= 254)
                    || (key == "direction" && value.Int? && (value.n == 1 || value.n == -1))
                    || (key == "zero_on_start" && value.Bool?
                        && (value.b ==> joint == "gizmo_yaw_joint" || joint == "gizmo_pitch_joint")))
            && HasKey(entry.entries, "can_id") && HasKey(entry.entries, "direction")
    ensures GoodEntry(joint, entry) ==>
              var m := MotorOf(joint, entry);
              && m.joint == joint
              && Under(entry.entries, "can_id", Int(m.canId))
              && Under(entry.entries, "direction", Int(m.direction))
              && (m.zeroOnStart <==> Under(entry.entries, "zero_on_start", Bool(true)))
  {
    if entry.Mapping? {
      var e := entry.entries;
      GetFinds(e, "can_id");
      GetFinds(e, "direction");
      GetFinds(e, "zero_on_start");
      GetIsUnder(e, "can_id");
      GetIsUnder(e, "direction");
      GetIsUnder(e, "zero_on_start");
      hide Get;
    }
  }

  lemma {:induction false} GetIsUnder(entries: seq<Entry>, key: string)
    ensures Get(entries, key).Some? ==> Under(entries, key, Get(entries, key).value)
  {
    if entries != [] {
      if entries[0].key == key {
        assert entries[0] == Entry(key, entries[0].value);
      } else {
        GetIsUnder(entries[1..], key);
        if Get(entries, key).Some? {
          var i :| 0 <= i < |entries| - 1 && entries[1..][i] == Entry(key, Get(entries, key).value);
          assert entries[i + 1] == entries[1..][i];
        }
      }
    }
  }

  predicate IsJoint(key: string) {
    key == "wheel_joint_left" || key == "wheel_joint_right" || key == "gizmo_yaw_joint" || key == "gizmo_pitch_joint"
  }

  /** The joints that must be listed: the wheels, and all four if the gizmo is required. */
  ghost predicate ListsJoints(entries: seq<Entry>, requireGizmo: bool) {
    && HasKey(entries, "wheel_joint_left") && HasKey(entries, "wheel_joint_right")
    && (requireGizmo ==> HasKey(entries, "gizmo_yaw_joint") && HasKey(entries, "gizmo_pitch_joint"))
  }

  /** Good files, without their problems: nothing but a mapping of motors at the top, the required
      joints listed and no others, a good entry for each, and no CAN ID twice. */
  lemma GoodFileMeaning(document: Yaml, requireGizmo: bool)
    requires UniqueKeys(document)
    ensures Good(document, requireGizmo) <==>
            && MotorsOf(document).Some?
            && (forall i :: 0 <= i < |document.entries| ==> document.entries[i].key == "motors")
            && var entries := MotorsOf(document).value;
               && ListsJoints(entries, requireGizmo)
               && (forall i :: 0 <= i < |entries| ==>
                     IsJoint(entries[i].key) && GoodEntry(entries[i].key, entries[i].value))
               && DistinctIds(Motors(entries))
  {
    if Good(document, requireGizmo) {
      GoodFileIsSo(document, requireGizmo);
    } else if MotorsOf(document).Some?
              && (forall i :: 0 <= i < |document.entries| ==> document.entries[i].key == "motors") {
      var entries := MotorsOf(document).value;
      if ListsJoints(entries, requireGizmo) && DistinctIds(Motors(entries))
         && (forall i :: 0 <= i < |entries| ==>
               IsJoint(entries[i].key) && GoodEntry(entries[i].key, entries[i].value)) {
        SuchFileIsGood(document, requireGizmo);
      }
    }
  }

  lemma GoodFileIsSo(document: Yaml, requireGizmo: bool)
    requires Good(document, requireGizmo)
    ensures forall i :: 0 <= i < |document.entries| ==> document.entries[i].key == "motors"
    ensures var entries := MotorsOf(document).value;
            && ListsJoints(entries, requireGizmo) && DistinctIds(Motors(entries))
            && (forall i :: 0 <= i < |entries| ==>
                  IsJoint(entries[i].key) && GoodEntry(entries[i].key, entries[i].value))
  {
    var top, entries := document.entries, MotorsOf(document).value;
    EntriesAreGood(document, requireGizmo);
    NoSharingMeansDistinct(Motors(entries)) by {
      forall p ensures !SharingProblem(Motors(entries), |Motors(entries)|, p) {
        assert !HasProblem(top, entries, requireGizmo, p);
      }
    }
    forall i | 0 <= i < |top| ensures top[i].key == "motors" {
      assert HasKey(top, top[i].key);
      assert !HasProblem(top, entries, requireGizmo, UnknownTopKey(top[i].key));
    }
    forall joint | joint in Required(requireGizmo) ensures HasKey(entries, joint) {
      assert !HasProblem(top, entries, requireGizmo, NoEntry(joint));
    }
    assert "wheel_joint_left" == WHEEL_JOINTS[0] && "wheel_joint_right" == WHEEL_JOINTS[1];
    assert "gizmo_yaw_joint" == GIZMO_JOINTS[0] && "gizmo_pitch_joint" == GIZMO_JOINTS[1];
    hide HasKey;
    hide GoodEntry;
    hide DistinctIds;
  }

  lemma SuchFileIsGood(document: Yaml, requireGizmo: bool)
    requires UniqueKeys(document) && MotorsOf(document).Some?
    requires forall i :: 0 <= i < |document.entries| ==> document.entries[i].key == "motors"
    requires var entries := MotorsOf(document).value;
             && ListsJoints(entries, requireGizmo) && DistinctIds(Motors(entries))
             && (forall i :: 0 <= i < |entries| ==>
                   IsJoint(entries[i].key) && GoodEntry(entries[i].key, entries[i].value))
    ensures Good(document, requireGizmo)
  {
    var top, entries := document.entries, MotorsOf(document).value;
    ListedAreRequired(entries, requireGizmo);
    forall p ensures !HasProblem(top, entries, requireGizmo, p) {
      NoJointProblem(entries, p);
      NoSharing(Motors(entries), p);
      hide JointProblem;
      hide SharingProblem;
      hide Required;
    }
  }

  lemma ListedAreRequired(entries: seq<Entry>, requireGizmo: bool)
    requires ListsJoints(entries, requireGizmo)
    ensures forall joint :: joint in Required(requireGizmo) ==> HasKey(entries, joint)
  {
    hide HasKey;
    assert WHEEL_JOINTS[0] == "wheel_joint_left" && WHEEL_JOINTS[1] == "wheel_joint_right";
    assert GIZMO_JOINTS[0] == "gizmo_yaw_joint" && GIZMO_JOINTS[1] == "gizmo_pitch_joint";
  }

  lemma NoSharing(motors: seq<Motor>, p: Problem)
    requires DistinctIds(motors)
    ensures !SharingProblem(motors, |motors|, p)
  {
  }

  lemma NoJointProblem(entries: seq<Entry>, p: Problem)
    requires forall i :: 0 <= i < |entries| ==>
               IsJoint(entries[i].key) && GoodEntry(entries[i].key, entries[i].value)
    ensures !JointProblem(entries, p)
  {
    forall i | 0 <= i < |entries| ensures !ProblemOf(entries[i], p) {
      GoodEntryHasNoProblem(entries[i].key, entries[i].value, p);
      hide EntryProblem;
      hide GoodEntry;
      assert "wheel_joint_left" == WHEEL_JOINTS[0] && "wheel_joint_right" == WHEEL_JOINTS[1];
      assert "gizmo_yaw_joint" == GIZMO_JOINTS[0] && "gizmo_pitch_joint" == GIZMO_JOINTS[1];
      assert entries[i].key in JOINTS;
    }
  }

  lemma GoodEntryHasNoProblem(joint: string, entry: Yaml, p: Problem)
    requires GoodEntry(joint, entry)
    ensures !EntryProblem(joint, entry, p)
  {
    hide GoodCanId;
    hide GoodDirection;
    hide GoodZeroOnStart;
  }

  lemma MotorsMappingHasUniqueKeys(document: Yaml)
    requires UniqueKeys(document) && MotorsOf(document).Some?
    ensures NoKeyTwice(MotorsOf(document).value)
  {
    GetFinds(document.entries, "motors");
    var i :| 0 <= i < |document.entries| && document.entries[i].key == "motors";
    assert UniqueKeys(document.entries[i].value);
  }

  lemma EntriesAreGood(document: Yaml, requireGizmo: bool)
    requires Good(document, requireGizmo)
    ensures var entries := MotorsOf(document).value;
            forall i :: 0 <= i < |entries| ==>
              entries[i].key in JOINTS && GoodEntry(entries[i].key, entries[i].value)
  {
    var entries := MotorsOf(document).value;
    forall p ensures !JointProblem(entries, p) {
      assert !HasProblem(document.entries, entries, requireGizmo, p);
    }
    forall i | 0 <= i < |entries|
      ensures entries[i].key in JOINTS && GoodEntry(entries[i].key, entries[i].value)
    {
      EntryIsGood(entries, i);
    }
  }

  lemma EntryIsGood(entries: seq<Entry>, i: nat)
    requires i < |entries| && forall p :: !JointProblem(entries, p)
    ensures entries[i].key in JOINTS && GoodEntry(entries[i].key, entries[i].value)
  {
    hide EntryProblem;
    forall p ensures !ProblemOf(entries[i], p) {
      assert !JointProblem(entries, p);
    }
    hide JointProblem;
    assert !ProblemOf(entries[i], UnknownJoint(entries[i].key));
    forall p ensures !EntryProblem(entries[i].key, entries[i].value, p) {
      assert !ProblemOf(entries[i], p);
    }
    NoProblemMeansGood(entries[i].key, entries[i].value);
  }
}
