/** Rewriting the CAN IDs of the motor configuration file in place, and identifying which motor
    has which ID.

    A line is what the two regular expressions of write_can_ids() make of it.
 */
module CanIdWriter {
  import opened Numbers
  import opened MotorConfig
  import P = Stm32RoundTrip

  datatype Line =
    // Blank, or only a comment
    | Skipped(text: string)
    // Not indented; `key` is the text before the first colon
    | Top(key: string, text: string)
    // "<indent>key:" with nothing behind it
    | JointLine(indent: nat, key: string, text: string)
    // "<indent>can_id: value", with what follows the value
    | CanIdLine(indent: nat, head: string, value: string, tail: string)
    | OtherLine(indent: nat, text: string)

  /** What the scan remembers from line to line. */
  datatype Scan = Scan(inMotors: bool, jointIndent: Option<nat>, joint: Option<string>)

  const START := Scan(false, None, None)

  function After(s: Scan, line: Line): Scan {
    match line
    case Skipped(_) => s
    case Top(key, _) => s.(inMotors := key == "motors", joint := None)
    case _ =>
      if !s.inMotors then s
      else
        var t := if s.jointIndent.None? then s.(jointIndent := Some(line.indent)) else s;
        if Some(line.indent) != t.jointIndent then t
        else t.(joint := if line.JointLine? then Some(line.key) else None)
  }

  function StateAt(lines: seq<Line>, i: nat): Scan
    requires i <= |lines|
  {
    if i == 0 then START else After(StateAt(lines, i - 1), lines[i - 1])
  }

  /** The joint whose can_id a line gives. */
  function JointOf(s: Scan, line: Line): Option<string> {
    if line.CanIdLine? && s.inMotors && s.jointIndent.Some? && s.jointIndent.value != line.indent
    then s.joint else None
  }

  function NewLine(s: Scan, line: Line, canIds: map<string, nat>): Line {
    var joint := JointOf(s, line);
    if joint.Some? && joint.value in canIds then line.(value := P.Digits(canIds[joint.value])) else line
  }

  function Rewritten(lines: seq<Line>, canIds: map<string, nat>): (r: seq<Line>)
    ensures |r| == |lines|
  {
    seq(|lines|, i requires 0 <= i < |lines| => NewLine(StateAt(lines, i), lines[i], canIds))
  }

  /** The scanning loop of write_can_ids(), which replaces lines as it goes. */
  method RewriteLines(file: seq<Line>, canIds: map<string, nat>) returns (lines: seq<Line>)
    ensures lines == Rewritten(file, canIds)
  {
    lines := file;
    var inMotors := false;
    var jointIndent: Option<nat> := None;
    var joint: Option<string> := None;
    for index := 0 to |file|
      invariant |lines| == |file|
      invariant Scan(inMotors, jointIndent, joint) == StateAt(file, index)
      invariant forall k :: index <= k < |file| ==> lines[k] == file[k]
      invariant forall k :: 0 <= k < index ==> lines[k] == Rewritten(file, canIds)[k]
    {
      var line := lines[index];
      LineStep(file, canIds, index);
      hide StateAt;
      hide Rewritten;
      if line.Skipped? {
        continue;
      }
      if line.Top? {
        inMotors, joint := line.key == "motors", None;
        continue;
      }
      if !inMotors {
        continue;
      }
      if jointIndent.None? {
        jointIndent := Some(line.indent);
      }
      if Some(line.indent) == jointIndent {
        joint := if line.JointLine? then Some(line.key) else None;
        continue;
      }
      if joint.Some? && joint.value in canIds && line.CanIdLine? {
        lines := lines[index := line.(value := P.Digits(canIds[joint.value]))];
      }
    }
  }

  lemma LineStep(file: seq<Line>, canIds: map<string, nat>, i: nat)
    requires i < |file|
    ensures StateAt(file, i + 1) == After(StateAt(file, i), file[i])
    ensures Rewritten(file, canIds)[i] == NewLine(StateAt(file, i), file[i], canIds)
  {
  }

  class MotorsFile {
    var lines: seq<Line>

    /** write_can_ids(). `read` stands for the YAML reader, which gives the document of a text. */
    method WriteCanIds(canIds: map<string, nat>, read: seq<Line> -> Option<Yaml>) returns (written: bool)
      modifies this
      ensures written == Accepted(read, old(lines), canIds)
      ensures lines == if written then Rewritten(old(lines), canIds) else old(lines)
    {
      var rewritten := RewriteLines(lines, canIds);
      var document := read(rewritten);
      if document.None? {
        return false;
      }
      var outcome := Parse(document.value, false);
      if !outcome.Ok? {
        return false;
      }
      if exists joint :: joint in canIds && !HasId(outcome.motors, joint, canIds[joint]) {
        return false;
      }
      lines := rewritten;
      written := true;
    }
  }

  predicate HasId(motors: seq<Motor>, joint: string, canId: nat) {
    var m := Lookup(motors, joint);
    m.Some? && m.value.canId == canId
  }

  /** The new text is a valid configuration, and has every ID that was asked for. */
  ghost predicate Accepted(read: seq<Line> -> Option<Yaml>, lines: seq<Line>, canIds: map<string, nat>) {
    var document := read(Rewritten(lines, canIds));
    && document.Some? && Good(document.value, false)
    && forall joint :: joint in canIds ==> HasId(Motors(MotorsOf(document.value).value), joint, canIds[joint])
  }

  /** What an accepted write leaves: the requested IDs are in range and all different, also from
      those of the joints that were not mentioned. */
  lemma AcceptedIdsAreDistinct(read: seq<Line> -> Option<Yaml>, lines: seq<Line>, canIds: map<string, nat>)
    requires Accepted(read, lines, canIds)
    ensures forall joint :: joint in canIds ==> joint in JOINTS && MIN_CAN_ID <= canIds[joint] <= MAX_CAN_ID
    ensures var motors := Motors(MotorsOf(read(Rewritten(lines, canIds)).value).value);
            && DistinctIds(motors) && DistinctJoints(motors)
            && forall joint, i :: joint in canIds && 0 <= i < |motors| && motors[i].canId == canIds[joint] ==>
                 motors[i].joint == joint
  {
    var document := read(Rewritten(lines, canIds)).value;
    var entries := MotorsOf(document).value;
    var motors := Motors(entries);
    JointsAndIdsCorrespond(document, false);
    MotorsMappingHasUniqueKeys(document);
    MotorsAreDistinct(entries);
    EntriesAreGood(document, false);
    hide Good;
    hide Names;
    forall joint | joint in canIds
      ensures joint in JOINTS && MIN_CAN_ID <= canIds[joint] <= MAX_CAN_ID
      ensures forall i :: 0 <= i < |motors| && motors[i].canId == canIds[joint] ==> motors[i].joint == joint
    {
      assert HasId(motors, joint, canIds[joint]);
      var k := LookupFinds(motors, joint);
      var e := MotorSource(entries, k);
    }
  }

  lemma {:induction false} LookupFinds(motors: seq<Motor>, joint: string) returns (i: nat)
    requires Lookup(motors, joint).Some?
    ensures i < |motors| && Lookup(motors, joint) == Some(motors[i]) && motors[i].joint == joint
  {
    if motors[0].joint == joint {
      i := 0;
    } else {
      var rest := LookupFinds(motors[1..], joint);
      i := rest + 1;
    }
  }

  /** An assignment that would leave two joints on one ID is refused. */
  lemma SharedIdsAreRefused(read: seq<Line> -> Option<Yaml>, lines: seq<Line>, canIds: map<string, nat>,
                            first: string, second: string)
    requires first in canIds && second in canIds && first != second && canIds[first] == canIds[second]
    ensures !Accepted(read, lines, canIds)
  {
    if Accepted(read, lines, canIds) {
      AcceptedIdsAreDistinct(read, lines, canIds);
      var motors := Motors(MotorsOf(read(Rewritten(lines, canIds)).value).value);
      assert HasId(motors, first, canIds[first]);
      var i := LookupFinds(motors, first);
      assert false;
    }
  }

  // Which line belongs to which joint -------------------------------------------------------

  /** The last top-level line before line i starts the motors section. */
  ghost predicate InMotors(lines: seq<Line>, i: nat)
    requires i <= |lines|
  {
    exists t :: 0 <= t < i && lines[t].Top? && lines[t].key == "motors"
                && forall n :: t < n < i ==> !lines[n].Top?
  }

  predicate Indented(line: Line) {
    !line.Skipped? && !line.Top?
  }

  /** The first indented line of a motors section, before line i, sets the indentation of joints. */
  ghost function JointIndent(lines: seq<Line>, i: nat): Option<nat>
    requires i <= |lines|
  {
    if i == 0 then None
    else if JointIndent(lines, i - 1).Some? then JointIndent(lines, i - 1)
    else if Indented(lines[i - 1]) && InMotors(lines, i - 1) then Some(lines[i - 1].indent)
    else None
  }

  /** Line h names the joint, at that indentation in a motors section, and neither another line at
      it nor a top-level line came since. */
  ghost predicate Heads(lines: seq<Line>, h: nat, i: nat, joint: string)
    requires i <= |lines|
  {
    && h < i && lines[h].JointLine? && lines[h].key == joint && InMotors(lines, h)
    && JointIndent(lines, h + 1) == Some(lines[h].indent)
    && forall n :: h < n < i ==> !lines[n].Top? && (Indented(lines[n]) ==> lines[n].indent != lines[h].indent)
  }

  ghost predicate Headed(lines: seq<Line>, i: nat, joint: string)
    requires i <= |lines|
  {
    exists h: nat :: Heads(lines, h, i, joint)
  }

  lemma {:induction false} StateMeaning(lines: seq<Line>, i: nat)
    requires i <= |lines|
    ensures var s := StateAt(lines, i);
            && (s.inMotors <==> InMotors(lines, i))
            && s.jointIndent == JointIndent(lines, i)
            && (s.joint.Some? ==> s.inMotors)
            && (forall joint :: s.joint == Some(joint) <==> Headed(lines, i, joint))
  {
    if i > 0 {
      StateMeaning(lines, i - 1);
      InMotorsStep(lines, i - 1, i);
      forall joint {
        HeadedStep(lines, i - 1, i, joint);
      }
      hide InMotors;
      hide Headed;
    }
  }

  lemma InMotorsStep(lines: seq<Line>, k: nat, i: nat)
    requires k < |lines| && i == k + 1
    ensures InMotors(lines, i) <==> if lines[k].Top? then lines[k].key == "motors" else InMotors(lines, k)
  {
    if !lines[k].Top? && InMotors(lines, k) {
      var t :| 0 <= t < k && lines[t].Top? && lines[t].key == "motors" && forall n :: t < n < k ==> !lines[n].Top?;
      assert forall n :: t < n < i ==> !lines[n].Top?;
    }
  }

  lemma {:induction false} InMotorsStays(lines: seq<Line>, h: nat, k: nat)
    requires h <= k <= |lines| && InMotors(lines, h) && forall n :: h <= n < k ==> !lines[n].Top?
    ensures InMotors(lines, k)
    decreases k
  {
    if h < k {
      InMotorsStays(lines, h, k - 1);
      InMotorsStep(lines, k - 1, k);
    }
  }

  lemma {:induction false} JointIndentStays(lines: seq<Line>, h: nat, k: nat)
    requires h <= k <= |lines| && JointIndent(lines, h).Some?
    ensures JointIndent(lines, k) == JointIndent(lines, h)
    decreases k
  {
    if h < k {
      JointIndentStays(lines, h, k - 1);
    }
  }

  lemma HeadedStep(lines: seq<Line>, k: nat, i: nat, joint: string)
    requires k < |lines| && i == k + 1
    ensures Headed(lines, i, joint) <==>
            if lines[k].Top? then false
            else if Indented(lines[k]) && InMotors(lines, k) && JointIndent(lines, i) == Some(lines[k].indent)
            then lines[k].JointLine? && lines[k].key == joint
            else Headed(lines, k, joint)
  {
    hide InMotors;
    if h: nat :| Heads(lines, h, i, joint) {
      if h < k {
        JointIndentStays(lines, h + 1, i);
        assert Heads(lines, h, k, joint);
      }
    }
    if h: nat :| Heads(lines, h, k, joint) {
      JointIndentStays(lines, h + 1, i);
      if !lines[k].Top? && (Indented(lines[k]) ==> lines[k].indent != lines[h].indent) {
        assert Heads(lines, h, i, joint);
      } else if !lines[k].Top? {
        InMotorsStays(lines, h, k);
      }
    }
    if !lines[k].Top? && lines[k].JointLine? && lines[k].key == joint && InMotors(lines, k)
       && JointIndent(lines, i) == Some(lines[k].indent) {
      assert Heads(lines, k, i, joint);
    }
  }

  /** The can_id lines that are rewritten: those with another indentation than the joints, under
      the line that names the joint. */
  lemma JointOfMeaning(lines: seq<Line>, i: nat, joint: string)
    requires i < |lines|
    ensures JointOf(StateAt(lines, i), lines[i]) == Some(joint) <==>
            lines[i].CanIdLine? && exists h: nat :: Heads(lines, h, i, joint) && lines[i].indent != lines[h].indent
  {
    StateMeaning(lines, i);
    if Headed(lines, i, joint) {
      var h: nat :| Heads(lines, h, i, joint);
      HeadedState(lines, h, i, joint);
    }
    forall h: nat | Heads(lines, h, i, joint) {
      HeadedState(lines, h, i, joint);
    }
    hide StateAt;
    hide Heads;
  }

  lemma HeadedState(lines: seq<Line>, h: nat, i: nat, joint: string)
    requires i < |lines| && Heads(lines, h, i, joint)
    ensures StateAt(lines, i) == Scan(true, Some(lines[h].indent), Some(joint))
  {
    StateMeaning(lines, i);
    JointIndentStays(lines, h + 1, i);
    assert Headed(lines, i, joint);
    hide StateAt;
  }

  // What rewriting changes ----------------------------------------------------------------

  lemma {:induction false} SameStates(lines: seq<Line>, canIds: map<string, nat>, i: nat)
    requires i <= |lines|
    ensures StateAt(Rewritten(lines, canIds), i) == StateAt(lines, i)
  {
    if i > 0 {
      SameStates(lines, canIds, i - 1);
      NewLineKeepsScan(StateAt(lines, i - 1), StateAt(lines, i - 1), lines[i - 1], canIds);
      hide After;
      hide NewLine;
    }
  }

  lemma NewLineKeepsScan(s: Scan, t: Scan, line: Line, canIds: map<string, nat>)
    ensures After(s, NewLine(t, line, canIds)) == After(s, line)
  {
  }

  /** Only the value token of the requested can_id lines changes; it becomes the new ID. Which
      joint a line belongs to stays as it was. */
  lemma OnlyRequestedIdsChange(lines: seq<Line>, canIds: map<string, nat>, i: nat)
    requires i < |lines|
    ensures var a, b := lines[i], Rewritten(lines, canIds)[i];
            var joint := JointOf(StateAt(lines, i), a);
            && JointOf(StateAt(Rewritten(lines, canIds), i), b) == joint
            && if joint.Some? && joint.value in canIds
               then b.CanIdLine? && b.indent == a.indent && b.head == a.head && b.tail == a.tail
                    && b.value == P.Digits(canIds[joint.value])
               else b == a
  {
    SameStates(lines, canIds, i);
    hide StateAt;
  }

  /** Two rewrites are one, in which the second has the last word. A rewrite never sees what it
      or another one wrote, so swapping two IDs takes a single pass. */
  lemma RewritesCompose(lines: seq<Line>, first: map<string, nat>, second: map<string, nat>)
    ensures Rewritten(Rewritten(lines, first), second) == Rewritten(lines, first + second)
  {
    forall i: nat | i < |lines|
      ensures Rewritten(Rewritten(lines, first), second)[i] == Rewritten(lines, first + second)[i]
    {
      OnlyRequestedIdsChange(lines, first, i);
    }
  }

  /** Writing the same IDs again is accepted again and changes nothing. */
  lemma WritingTwiceIsWritingOnce(read: seq<Line> -> Option<Yaml>, lines: seq<Line>,
                                  canIds: map<string, nat>)
    ensures Rewritten(Rewritten(lines, canIds), canIds) == Rewritten(lines, canIds)
    ensures Accepted(read, Rewritten(lines, canIds), canIds) == Accepted(read, lines, canIds)
  {
    RewritesCompose(lines, canIds, canIds);
    assert canIds + canIds == canIds;
  }

  /** Every requested joint's line gives the ID in plain decimals. */
  ghost predicate Shows(lines: seq<Line>, canIds: map<string, nat>) {
    forall i :: 0 <= i < |lines| ==> ShowsAt(lines, canIds, i)
  }

  ghost predicate ShowsAt(lines: seq<Line>, canIds: map<string, nat>, i: nat)
    requires i < |lines|
  {
    var joint := JointOf(StateAt(lines, i), lines[i]);
    joint.Some? && joint.value in canIds ==> lines[i].value == P.Digits(canIds[joint.value])
  }

  /** Writing other IDs, and then the ones that were there, restores the file to the letter. */
  lemma WritingBackRestores(lines: seq<Line>, canIds: map<string, nat>, former: map<string, nat>)
    requires Shows(lines, former) && canIds.Keys == former.Keys
    ensures Rewritten(Rewritten(lines, canIds), former) == lines
  {
    RewritesCompose(lines, canIds, former);
    assert canIds + former == former;
    forall i: nat | i < |lines| ensures Rewritten(lines, former)[i] == lines[i] {
      assert ShowsAt(lines, former, i);
    }
  }
}
