/** The sensor bridge node, and its sensor faults end to end: from the board's comment lines to
    the commands of the web bridge.
 */
module SensorFault {
  import opened Numbers
  import opened ObstacleGuard
  import opened BridgeSpec
  import DriveSafety
  import P = Stm32Protocol
  import F = Stm32RoundTrip
  import PyText

  // The bridge node -------------------------------------------------------------------

  datatype Faults = Faults(left: bool, right: bool)
  {
    predicate At(side: Side) {
      match side
      case Left => left
      case Right => right
    }

    function With(side: Side, faulty: bool): Faults {
      match side
      case Left => this.(left := faulty)
      case Right => this.(right := faulty)
    }
  }

  const NO_FAULTS := Faults(false, false)

  datatype Limits = Limits(minRange: real, maxRange: real)

  /** One side's range of a measurement line. */
  function RangeOf(r: P.Reading, limits: Limits, faults: Faults, side: Side): RangeValue {
    P.DistanceToRange(if side == Left then r.leftCm else r.rightCm,
                      limits.minRange, limits.maxRange, faults.At(side))
  }

  function AfterComment(faults: Faults, line: string): Faults {
    var status := P.ParseSensorStatus(line);
    if status.Some? then faults.With(status.value.side, status.value.faulty)
    else if P.IsBanner(line) then NO_FAULTS
    else faults
  }

  function AfterLine(faults: Faults, line: string, other: string -> P.Float): Faults {
    if P.ParseLine(line, other).None? && P.IsComment(line) then AfterComment(faults, line) else faults
  }

  /** The ranges a line makes the node publish: one on each side's topic, or none. */
  function Published(faults: Faults, limits: Limits, line: string, other: string -> P.Float)
    : seq<(Side, RangeValue)>
  {
    var reading := P.ParseLine(line, other);
    if reading.None? then []
    else [(Left, RangeOf(reading.value, limits, faults, Left)),
          (Right, RangeOf(reading.value, limits, faults, Right))]
  }

  class Stm32BridgeNode {
    const limits: Limits
    var faulty: map<Side, bool>
    // Everything published so far
    ghost var log: seq<(Side, RangeValue)>

    ghost predicate Valid()
      reads this
    {
      Left in faulty && Right in faulty
    }

    function Value(): Faults
      requires Valid()
      reads this
    {
      Faults(faulty[Left], faulty[Right])
    }

    constructor (limits: Limits)
      ensures Valid() && Value() == NO_FAULTS && log == []
    {
      this.limits := limits;
      faulty, log := map[Left := false, Right := false], [];
    }

    /** A successful connect(). */
    method Connected()
      modifies this`faulty
      ensures Valid() && Value() == NO_FAULTS
    {
      faulty := map[Left := false, Right := false];
    }

    method HandleLine(line: string, other: string -> P.Float)
      requires Valid()
      modifies this`faulty, this`log
      ensures Valid() && Value() == AfterLine(old(Value()), line, other)
      ensures log == old(log) + Published(old(Value()), limits, line, other)
    {
      var reading := P.ParseFields(line, other);
      if reading.None? {
        var text := PyText.Strip(line);
        P.StrippingTwice(line);
        if P.IsComment(text) {
          HandleComment(text);
        }
        return;
      }
      var left := P.DistanceToRange(reading.value.leftCm, limits.minRange, limits.maxRange, faulty[Left]);
      var right := P.DistanceToRange(reading.value.rightCm, limits.minRange, limits.maxRange, faulty[Right]);
      log := log + [(Left, left), (Right, right)];
    }

    method HandleComment(text: string)
      requires Valid()
      modifies this`faulty
      ensures Valid() && Value() == AfterComment(old(Value()), text)
    {
      var status := P.ParseSensorStatus(text);
      if status.Some? {
        faulty := faulty[status.value.side := status.value.faulty];
        return;
      }
      if P.IsBanner(text) && (faulty[Left] || faulty[Right]) {
        faulty := map[Left := false, Right := false];
      }
    }
  }

  /** What a range says: NaN exactly for a reported fault, infinity exactly for no echo within
      reach, and otherwise the distance, but at least the minimum range. */
  lemma RangeMeaning(cm: Option<real>, minRange: real, maxRange: real, faulty: bool)
    ensures var r := P.DistanceToRange(cm, minRange, maxRange, faulty);
            && (r.NaN? <==> faulty)
            && (r.PositiveInfinity? <==> !faulty && (cm.None? || cm.value > 100.0 * maxRange))
            && (r.Value? ==> r.m >= minRange && r.m >= cm.value / 100.0
                             && (r.m == cm.value / 100.0 || cm.value < 100.0 * minRange))
            && !r.NegativeInfinity?
  {
  }

  // Both nodes and the topics between them ----------------------------------------------------

  /** A range on its way to the web bridge, and the step that published it. */
  datatype InFlight = InFlight(range: RangeValue, step: int)

  datatype Robot = Robot(faults: Faults, left: seq<InFlight>, right: seq<InFlight>, web: Bridge)
  {
    function Topic(side: Side): seq<InFlight> {
      match side
      case Left => left
      case Right => right
    }
  }

  datatype Event =
    | Connect
    | Serial(line: string)
    // The oldest message of a side's topic arrives, or is lost
    | Deliver(side: Side, now: real)
    | Lose(side: Side)
    | Web(op: Op)

  datatype Setting = Setting(limits: Limits, other: string -> P.Float)

  datatype Run = Run(setting: Setting, robots: seq<Robot>, events: seq<Event>)

  function WithoutFirst(r: Robot, side: Side): Robot
    requires r.Topic(side) != []
  {
    match side
    case Left => r.(left := r.left[1..])
    case Right => r.(right := r.right[1..])
  }

  predicate Enabled(r: Robot, e: Event) {
    match e
    case Deliver(side, _) => r.Topic(side) != []
    case Lose(side) => r.Topic(side) != []
    case Web(op) => !op.OnRange?
    case _ => true
  }

  function After(setting: Setting, r: Robot, e: Event, step: int): Robot
    requires Enabled(r, e)
  {
    match e
    case Connect => r.(faults := NO_FAULTS)
    case Serial(line) =>
      var sent := Published(r.faults, setting.limits, line, setting.other);
      Robot(AfterLine(r.faults, line, setting.other),
            r.left + if sent == [] then [] else [InFlight(sent[0].1, step)],
            r.right + if sent == [] then [] else [InFlight(sent[1].1, step)],
            r.web)
    case Deliver(side, now) =>
      WithoutFirst(r, side).(web := Apply(r.web, OnRange(side, r.Topic(side)[0].range, now)).bridge)
    case Lose(side) => WithoutFirst(r, side)
    case Web(op) => r.(web := Apply(r.web, op).bridge)
  }

  ghost predicate StepAt(r: Run, i: int)
    requires |r.robots| == |r.events| + 1 && 0 <= i < |r.events|
  {
    Enabled(r.robots[i], r.events[i])
    && r.robots[i + 1] == After(r.setting, r.robots[i], r.events[i], i)
  }

  ghost predicate IsRun(r: Run) {
    && |r.robots| == |r.events| + 1
    && r.robots[0].faults == NO_FAULTS && r.robots[0].left == [] && r.robots[0].right == []
    && forall i :: 0 <= i < |r.events| ==> StepAt(r, i)
  }

  // What the board's lines put on the topics --------------------------------------------------------

  /** A distance in tenths of a centimetre, as the range of a sensor that works: REP 117 in metres,
      at least the minimum range, and infinite for no echo within reach. */
  function RangeOfTenths(tenths: int, limits: Limits): RangeValue {
    var metres := tenths as real / 1000.0;
    if tenths <= 0 || metres > limits.maxRange then PositiveInfinity
    else Value(if metres < limits.minRange then limits.minRange else metres)
  }

  /** Every measurement line of the board, with any distances and any battery voltage, puts one
      range on each topic: D1 on the left one and D2 on the right one, and NaN for a side that
      is flagged. */
  lemma ReadingsReachTheirTopics(r: Run, i: nat, left: int, right: int, volts: Option<int>)
    requires IsRun(r) && i < |r.events| && r.events[i] == Serial(F.FormatReading(left, right, volts))
    ensures var a, b, limits := r.robots[i], r.robots[i + 1], r.setting.limits;
            && b.left == a.left + [InFlight(if a.faults.left then NaN else RangeOfTenths(left, limits), i)]
            && b.right == a.right + [InFlight(if a.faults.right then NaN else RangeOfTenths(right, limits), i)]
            && b.faults == a.faults && b.web == a.web
  {
    var line := F.FormatReading(left, right, volts);
    assert StepAt(r, i);
    PublishedReading(r.robots[i].faults, r.setting.limits, left, right, volts, r.setting.other);
    hide IsRun;
    hide F.FormatReading;
    hide Published;
    hide AfterLine;
    hide RangeOfTenths;
  }

  lemma PublishedReading(faults: Faults, limits: Limits, left: int, right: int, volts: Option<int>,
                         other: string -> P.Float)
    ensures var line := F.FormatReading(left, right, volts);
            && Published(faults, limits, line, other)
               == [(Left, if faults.left then NaN else RangeOfTenths(left, limits)),
                   (Right, if faults.right then NaN else RangeOfTenths(right, limits))]
            && AfterLine(faults, line, other) == faults
  {
    F.ParsePrintedReading(left, right, volts, other);
    hide F.FormatReading;
    hide P.ParseLine;
    hide P.IsComment;
    TenthsInMetres(left);
    TenthsInMetres(right);
    hide P.Per;
  }

  lemma TenthsInMetres(tenths: int)
    ensures P.Per(tenths, 10) / 100.0 == tenths as real / 1000.0
  {
  }

  // The fault flags -------------------------------------------------------------------------------

  /** Step i reads a warning about a side. */
  predicate Warned(r: Run, i: int, side: Side)
    requires 0 <= i < |r.events|
  {
    r.events[i].Serial? && P.ParseSensorStatus(r.events[i].line) == Some(P.SensorStatus(side, true))
  }

  /** Step i ends a fault of a side: its recovery line, the boot banner, or a new connection. */
  predicate Cleared(r: Run, i: int, side: Side)
    requires 0 <= i < |r.events|
  {
    || r.events[i].Connect?
    || (r.events[i].Serial?
        && var status := P.ParseSensorStatus(r.events[i].line);
           status == Some(P.SensorStatus(side, false)) || (status.None? && P.IsBanner(r.events[i].line)))
  }

  ghost predicate FaultyFrom(r: Run, w: int, k: int, side: Side)
    requires k <= |r.events|
  {
    0 <= w < k && Warned(r, w, side) && forall i :: w < i < k ==> !Cleared(r, i, side)
  }

  lemma CommentsAreNoReadings(line: string, other: string -> P.Float)
    requires P.ParseSensorStatus(line).Some? || P.IsBanner(line)
    ensures P.IsComment(line) && P.ParseLine(line, other).None?
  {
  }

  lemma FlagStep(r: Run, i: int, side: Side)
    requires IsRun(r) && 0 <= i < |r.events|
    ensures r.robots[i + 1].faults.At(side) <==>
              Warned(r, i, side) || (r.robots[i].faults.At(side) && !Cleared(r, i, side))
  {
    assert StepAt(r, i);
    if r.events[i].Serial? {
      var line := r.events[i].line;
      if P.ParseSensorStatus(line).Some? || P.IsBanner(line) {
        CommentsAreNoReadings(line, r.setting.other);
      }
      hide P.ParseSensorStatus;
      hide P.IsBanner;
      hide P.ParseLine;
    }
  }

  lemma {:induction false} FlagHasWarning(r: Run, k: nat, side: Side) returns (w: nat)
    requires IsRun(r) && k <= |r.events| && r.robots[k].faults.At(side)
    ensures FaultyFrom(r, w, k, side)
  {
    assert k > 0;
    FlagStep(r, k - 1, side);
    hide FaultyFrom;
    if Warned(r, k - 1, side) {
      w := k - 1;
    } else {
      w := FlagHasWarning(r, k - 1, side);
    }
    FaultyFromStep(r, w, k, side);
  }

  lemma {:induction false} WarningSetsFlag(r: Run, w: nat, k: nat, side: Side)
    requires IsRun(r) && k <= |r.events| && FaultyFrom(r, w, k, side)
    ensures r.robots[k].faults.At(side)
    decreases k
  {
    assert w < k;
    FlagStep(r, k - 1, side);
    FaultyFromStep(r, w, k, side);
    hide FaultyFrom;
    if w < k - 1 {
      WarningSetsFlag(r, w, k - 1, side);
    }
  }

  /** A side is flagged exactly when a warning about it came after the last recovery line of
      that side, boot banner or new connection. */
  lemma FaultFlagIsExact(r: Run, k: nat, side: Side)
    requires IsRun(r) && k <= |r.events|
    ensures r.robots[k].faults.At(side) <==> exists w :: FaultyFrom(r, w, k, side)
  {
    if r.robots[k].faults.At(side) {
      var w := FlagHasWarning(r, k, side);
    }
    if w :| FaultyFrom(r, w, k, side) {
      WarningSetsFlag(r, w, k, side);
    }
  }

  lemma FaultyFromStep(r: Run, w: int, k: int, side: Side)
    requires 0 <= w && 0 < k <= |r.events|
    ensures FaultyFrom(r, w, k, side) <==>
            if w == k - 1 then Warned(r, w, side)
            else FaultyFrom(r, w, k - 1, side) && !Cleared(r, k - 1, side)
  {
    hide Warned;
    hide Cleared;
  }

  // From the warning to the wheels ------------------------------------------------------------------

  /** Messages come in the order of the steps that published them. */
  ghost predicate Ordered(topic: seq<InFlight>, before: int) {
    && (forall i, k :: 0 <= i < k < |topic| ==> topic[i].step <= topic[k].step)
    && (forall i :: 0 <= i < |topic| ==> topic[i].step < before)
  }

  /** Every range published after step w is NaN. */
  ghost predicate FaultySince(topic: seq<InFlight>, w: int) {
    forall i :: 0 <= i < |topic| && topic[i].step > w ==> topic[i].range == NaN
  }

  /** A step adds a range behind a topic, takes the first one off, or leaves it alone. */
  lemma TopicStep(r: Run, i: nat, side: Side)
    requires IsRun(r) && i < |r.events|
    ensures var before, after := r.robots[i].Topic(side), r.robots[i + 1].Topic(side);
            || after == before
            || (before != [] && after == before[1..])
            || exists range :: after == before + [InFlight(range, i)]
                               && (r.robots[i].faults.At(side) ==> range == NaN)
  {
    assert StepAt(r, i);
    match r.events[i]
    case Serial(line) =>
      var sent := Published(r.robots[i].faults, r.setting.limits, line, r.setting.other);
      hide P.ParseLine;
      if sent != [] {
        var range := if side == Left then sent[0].1 else sent[1].1;
        assert r.robots[i + 1].Topic(side) == r.robots[i].Topic(side) + [InFlight(range, i)];
      } else {
        assert r.robots[i + 1].Topic(side) == r.robots[i].Topic(side);
      }
    case _ =>
  }

  lemma {:induction false} TopicsAreOrdered(r: Run, k: nat, side: Side)
    requires IsRun(r) && k <= |r.events|
    ensures Ordered(r.robots[k].Topic(side), k)
  {
    if k > 0 {
      TopicsAreOrdered(r, k - 1, side);
      TopicStep(r, k - 1, side);
      hide IsRun;
    }
  }

  lemma {:induction false} FaultFillsTopic(r: Run, w: nat, k: nat, side: Side)
    requires IsRun(r) && w < k <= |r.events| && FaultyFrom(r, w, k, side)
    ensures FaultySince(r.robots[k].Topic(side), w)
    decreases k
  {
    hide Robot.Topic;
    hide Faults.At;
    FaultyFromStep(r, w, k, side);
    hide FaultyFrom;
    TopicStep(r, k - 1, side);
    TopicsAreOrdered(r, k - 1, side);
    if w < k - 1 {
      FaultFillsTopic(r, w, k - 1, side);
      WarningSetsFlag(r, w, k - 1, side);
    }
    hide IsRun;
  }

  /** Step d delivers a range of the side that was published after step w. */
  predicate DeliversNews(r: Run, d: int, w: int, side: Side)
    requires |r.robots| == |r.events| + 1 && 0 <= d < |r.events|
  {
    r.events[d].Deliver? && r.events[d].side == side && r.robots[d].Topic(side) != []
    && r.robots[d].Topic(side)[0].step > w
  }

  lemma RangedAfter(r: Run, i: nat, side: Side)
    requires IsRun(r) && i < |r.events|
    ensures DriveSafety.RangedAt(r.robots[i + 1].web, side).reading ==
            if r.events[i].Deliver? && r.events[i].side == side && r.robots[i].Topic(side) != []
            then ReadingOf(r.robots[i].Topic(side)[0].range)
            else DriveSafety.RangedAt(r.robots[i].web, side).reading
  {
    assert StepAt(r, i);
    hide Apply;
    match r.events[i]
    case Deliver(s, now) =>
      DriveSafety.RangesChangeByRanging(r.robots[i].web, OnRange(s, r.robots[i].Topic(s)[0].range, now), side);
    case Web(op) =>
      DriveSafety.RangesChangeByRanging(r.robots[i].web, op, side);
    case _ =>
  }

  /** From the first range delivered after the warning, the web bridge knows the fault. */
  lemma {:induction false} FaultReachesTheGuard(r: Run, w: nat, d: nat, k: nat, side: Side)
    requires IsRun(r) && w < d < k <= |r.events|
    requires FaultyFrom(r, w, k, side) && DeliversNews(r, d, w, side)
    ensures DriveSafety.RangedAt(r.robots[k].web, side).reading == Faulty
    ensures forall i :: 0 <= i < |r.robots[k].Topic(side)| ==> r.robots[k].Topic(side)[i].step > w
    decreases k
  {
    hide Apply;
    hide DriveSafety.RangedAt;
    hide Robot.Topic;
    FaultyFromStep(r, w, k, side);
    hide FaultyFrom;
    FaultFillsTopic(r, w, k - 1, side);
    TopicsAreOrdered(r, k - 1, side);
    TopicStep(r, k - 1, side);
    RangedAfter(r, k - 1, side);
    if d < k - 1 {
      FaultReachesTheGuard(r, w, d, k - 1, side);
    } else {
      DeliveryTakesFirst(r, d);
    }
    hide IsRun;
  }

  lemma DeliveryTakesFirst(r: Run, d: nat)
    requires IsRun(r) && d < |r.events| && r.events[d].Deliver?
    ensures var side := r.events[d].side;
            r.robots[d].Topic(side) != [] && r.robots[d + 1].Topic(side) == r.robots[d].Topic(side)[1..]
  {
    assert StepAt(r, d);
  }

  /** Fail-safe end to end: with the guard on and data required, from the first range delivered
      after a warning until the fault ends, no forward velocity is published. */
  lemma SensorFaultStopsForwardMotion(r: Run, w: nat, d: nat, k: nat, side: Side, m: Message)
    requires IsRun(r) && w < d < k < |r.events|
    requires FaultyFrom(r, w, k, side) && DeliversNews(r, d, w, side)
    requires r.events[k].Web? && m in Apply(r.robots[k].web, r.events[k].op).sent && m.Twist?
    requires r.robots[k].web.cfg.stopDistance > 0.0 && r.robots[k].web.cfg.requireUltrasonic
    ensures m.linear <= 0.0
  {
    FaultReachesTheGuard(r, w, d, k, side);
    FaultBlocks(r.robots[k].web, r.events[k].op, side, m);
  }

  lemma FaultBlocks(b: Bridge, op: Op, side: Side, m: Message)
    requires DriveSafety.RangedAt(b, side).reading == Faulty
    requires m in Apply(b, op).sent && m.Twist?
    requires b.cfg.stopDistance > 0.0 && b.cfg.requireUltrasonic
    ensures m.linear <= 0.0
  {
    if m.linear > 0.0 {
      DriveSafety.NonzeroTwistsComeFromTheTimer(b, op, m);
      var linear := b.command.value.linear;
      DriveSafety.BrakingIsNonnegative(linear, b.cfg.reactionTime, b.cfg.deceleration);
      GuardMeaning(linear, FreshRanges(b, op.now), EffectiveStop(b.cfg, linear), true);
      assert FreshRanges(b, op.now).At(side).Missing();
      TimerPublishesGuarded(b, op.now, m);
      assert false;
    }
  }

  lemma TimerPublishesGuarded(b: Bridge, now: real, m: Message)
    requires m in AfterDriveTimer(b, now).sent && m.Twist? && m.linear > 0.0
    ensures b.command.Some?
    ensures var linear := b.command.value.linear;
            m.linear == GuardCommand(linear, FreshRanges(b, now), EffectiveStop(b.cfg, linear),
                                     b.cfg.requireUltrasonic).0
  {
    hide GuardCommand;
  }
}
