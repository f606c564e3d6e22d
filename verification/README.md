# Motion safety of the IoT robot, modelled and proved in Dafny

This project models the parts of the robot software that decide whether, and how far, something
moves, and proves what they keep over every run.

The models follow the code, branch by branch. Code that updates objects in place is a class whose
methods are proved against a specification function or relation on values; the properties of whole
runs are lemmas about those. Times of the motor plugin are integer nanoseconds, as its clock counts
them; other floating-point numbers are mathematical reals, with NaN and the infinities as
constructors where the code tells them apart (REP 117).

## Structure

| file | what it models |
|---|---|
| `Numbers.dfy` | small arithmetic: options, clamping, truncating division |
| `Joints.dfy` | one joint of the motor plugin: drain, watchdog, stall timer, slew limit, release, switch |
| `SafeSpec.dfy` | the plugin as a transition relation over lifecycle callbacks and cycles |
| `SafeSystem.dfy` | the plugin's callbacks as methods of a class with a trace of CAN frames |
| `SafeRuns.dfy` | invariants over all runs, and the stop latch |
| `SlewRuns.dfy` | the slew limit across writes, controller switches and reactivations |
| `StatusRuns.dfy` | the watchdog against the frames drained in a run, activation included |
| `GuardRuns.dfy` | stall guard and release against the history of a run |
| `CommandRuns.dfy` | the value of every motion frame, and how old a command can be |
| `ReleaseRuns.dfy` | controller switches that let go of a joint, and what its motor gets from then on |
| `ServoCodec.dfy` | the servo frames at byte level, in Python and in C++ |
| `StopMotors.dfy` | the tools' brake-then-release stop |
| `FakeMotor.dfy` | the emulated motor |
| `MotorModes.dfy` | the motor from outside: its status in the plugin, and each command mode |
| `Plant.dfy` | plugin frames applied to the motor: zeroing, and the closed loop of one joint |
| `ClosedLoop.dfy` | the closed loop over whole runs of the plugin |
| `DriverLock.dfy`, `EchoFilter.dfy`, `ObstacleGuard.dfy` | the cores of the web controller |
| `BridgeSpec.dfy`, `RobotBridge.dfy` | the web bridge, as a state machine and as a class |
| `DriveSafety.dfy` | dead-man, mutual exclusion, e-stop and obstacle guard over all interleavings |
| `TwistRuns.dfy` | what must be published: the last twist anybody heard |
| `EchoRuns.dfy` | the shared e-stop topic as a first-in first-out channel |
| `PyText.dfy`, `Stm32Protocol.dfy`, `Stm32RoundTrip.dfy` | the sensor board's line protocol |
| `LineReader.dfy` | reassembly of lines from serial reads |
| `SensorFault.dfy` | the sensor bridge, and a sensor fault from the board's comment to the wheels |
| `MotorConfig.dfy`, `CanIdWriter.dfy`, `Identify.dfy` | motors.yaml: validation, rewriting, identification |
| `ExposureConflict.dfy` | the camera's exposure transaction |

## What the proofs found

- The effective stop distance is capped at 0.3 m (web_controller.py:302), while docs/web.md:85-88
  describes one that grows with the speed. The model follows the code; `StopDistanceIsKept` says
  that the configured distance is kept exactly as long as stop plus braking distance is within the
  cap.
- `drive`, `aim_gizmo` and the drive timer read the clock before they take the lock
  (web_controller.py:285, 372, 414), the first two on the asyncio thread and the timer on the
  executor thread. `SkewBoundIsExact`: a nonzero twist always has a live driver exactly if the
  command timeout plus the longest wait for the lock is within the driver timeout; beyond that the
  timer can publish a command while another client holds the lock already.
- docs/web.md:135-142 has the node show the latest `/e_stop` state. It can end up showing the
  opposite: another node's release in flight, then an own stop, and the release is acted on while
  the own message passes for the echo (`MirrorCanDisagree`); or an own stop, another node's release,
  and the repetition of the stop (`RepeatedStopCanDisagree`). `LastOwnMessageWins` says exactly when,
  from the messages in flight and the echoes expected at the last publication.
- zero_joints() checks no faults (safe_system.cpp:990-1041), so an activation can succeed while a
  motor reports one; only the first read stops it (`FaultWhileZeroingIsUnseen`). Until then the
  bound on the detection latency counts from the check of wait_for_status() (`MotionFollowsStatus`).
- A joint with two claimed interfaces is released as soon as one of them is stopped
  (safe_system.cpp:559-573). A controller that keeps the velocity or effort interface is let through
  all the same: its next command goes out behind the release frame of every write
  (`PartlyStoppedJointGetsBoth`). One that keeps the position interface loses the joint silently:
  it still holds the interface, and nothing it commands is sent (`StoppedJointIsReleased`).
  `ReleaseIsExact` says exactly which switches leave the motor to its release.
- The retry in the plugin's write() for a target that is still NaN can never be needed
  (`TargetsAreKnownWhileActive`).
- A measurement line whose fields are reordered parses the same, except that a field starting with
  "#" makes the line a comment when it comes first (`FieldOrderIsIrrelevant`).
- One parameter request that first switches automatic exposure off and then on again leaves it on
  together with a set exposure time (`SwitchingTwiceBringsBoth`); `RequestIsSafeExactly` says
  exactly which requests can do so.
- With manual exposure and a time as defaults, an override to automatic exposure alone is overruled:
  the camera starts in manual mode with the default time (`StartingExposure`).
- If rclcpp refuses a set between the two parameter callbacks, tmp_store keeps a stored value and
  the next attempt meets `assert(tmp_store.empty())` (`InterruptionLeavesTrace`).
- If the very first set of parameters at declaration is refused, a default exposure time that was
  just given back is lost (`DeclarationCanLoseTheTime`); `DeclarationKeepsOrGivesBack` says exactly
  when.

## Model

| member | source | states |
|---|---|---|
| SafeSystem.FindSharedCanId | src/external/cubemars_hardware_safe/src/safe_system.cpp:220-232 | Finds the first pair of joints with one CAN ID, and none exactly if all IDs differ |
| SafeSystem.SafeSystemHardware.StopMotors | src/external/cubemars_hardware_safe/src/safe_system.cpp:773-812 | Terminates for every clock; 1 to floor(brake/20 ms)+1 zero-speed rounds, the release later than brake - 20 ms, then one release per motor; marks the component stopped |
| SafeSystem.SafeSystemHardware.ContinueRelease | src/external/cubemars_hardware_safe/src/safe_system.cpp:757-771 | One non-blocking release step: zero speed before the release time, one release at it, and only this joint changes |
| SafeSystem.SafeSystemHardware.DrainStatus | src/external/cubemars_hardware_safe/src/safe_system.cpp:814-854 | The loop over the queued frames equals a declarative drain: latest values, last nonzero fault of the batch |
| SafeSystem.SafeSystemHardware.MotorsAreHealthy | src/external/cubemars_hardware_safe/src/safe_system.cpp:856-890 | Drains, then fails exactly for an active component with a lost motor or a broken socket |
| SafeSystem.SafeSystemHardware.EffortsOk | src/external/cubemars_hardware_safe/src/safe_system.cpp:892-924 | The stall timers advance up to the first stalled joint, and the result says whether there is one |
| SafeSystem.SafeSystemHardware.Read | src/external/cubemars_hardware_safe/src/safe_system.cpp:588-611 | One read cycle refines the transition relation, trip and stop burst included |
| SafeSystem.SafeSystemHardware.Write | src/external/cubemars_hardware_safe/src/safe_system.cpp:613-653 | One write cycle refines the transition relation: release frames, slewed targets, upstream frames; what the frames carry is WriteTellsCommands |
| SafeSystem.SafeSystemHardware.PerformCommandModeSwitch | src/external/cubemars_hardware_safe/src/safe_system.cpp:536-586 | Refines the switch relation: releases stopped joints, seeds targets of started ones, and claims exactly what upstream accepted |
| SafeSystem.SafeSystemHardware.WaitForStatus | src/external/cubemars_hardware_safe/src/safe_system.cpp:926-960 | The joints have drained the recorded polls; true exactly if at its last look every joint had a fault-free status younger than the timeout; sends nothing |
| SafeSystem.SafeSystemHardware.ZeroJoints | src/external/cubemars_hardware_safe/src/safe_system.cpp:962-1041 | Sends release then set-origin to each zeroed joint; true only if each such joint's latest frame came after its origin and reads within one degree |
| SafeSystem.SafeSystemHardware.OnActivate | src/external/cubemars_hardware_safe/src/safe_system.cpp:468-500 | Deterministic in what it hears: the joints hold what the drains of wait_for_status and zero_joints brought, in their order; success exactly if each motor was recent and fault-free when last looked at and each zeroed joint confirmed its origin; else refused, or a stop burst |
| SafeSystem.SafeSystemHardware.OnDeactivate | src/external/cubemars_hardware_safe/src/safe_system.cpp:502-508 | Refines the deactivation step: stop burst, inactive, socket kept |
| SafeSystem.SafeSystemHardware.OnCleanup | src/external/cubemars_hardware_safe/src/safe_system.cpp:457-466 | Refines the exit step: stops unless stopped, closes the socket |
| SafeSystem.SafeSystemHardware.OnShutdown | src/external/cubemars_hardware_safe/src/safe_system.cpp:510-519 | Refines the exit step |
| SafeSystem.SafeSystemHardware.OnError | src/external/cubemars_hardware_safe/src/safe_system.cpp:521-534 | Refines the exit step that keeps the socket open |
| SafeSystem.SafeSystemHardware.Destroy | src/external/cubemars_hardware_safe/src/safe_system.cpp:196-203 | The destructor refines the exit step |
| SafeSystem.SafeSystemHardware.OnConfigure | src/external/cubemars_hardware_safe/src/safe_system.cpp:442-455 | Opens the socket exactly if it can be bound; sends nothing |
| SafeRuns.RunKeepsInv | src/external/cubemars_hardware_safe/include/cubemars_hardware_safe/safe_system.hpp:8-22 | On every run: active exactly if not stopped; releasing implies active and not position-claimed; no joint is added, removed or reconfigured |
| SafeRuns.StopLatch | src/external/cubemars_hardware_safe/src/safe_system.cpp:457-534 | From any step that leaves active until the next successful activation only zero speed, zero current and the origins of an activation attempt are sent |
| SafeRuns.ExitBurst | src/external/cubemars_hardware_safe/src/safe_system.cpp:773-812 | Leaving active with an open socket sends the brake-then-release burst to all motors and leaves nothing releasing |
| SafeRuns.OnlyActiveWritesMove | src/external/cubemars_hardware_safe/src/safe_system.cpp:613-618 | A motion frame leaves the component only in a write of the active state |
| SafeRuns.MotorsStayReleased | src/external/cubemars_hardware_safe/src/safe_system.cpp:773-812 | After the exit, every motor's last drive command stays a release through any further callbacks |
| SafeRuns.SocketIsOpenSince | src/external/cubemars_hardware_safe/src/safe_system.cpp:442-466 | The status socket is open exactly since a configuration that succeeded, with no callback since that closes it |
| SlewRuns.SlewedStep | src/external/cubemars_hardware_safe/src/safe_system.cpp:639-650 | A slew step is short, heads for the limited command without passing it, and never goes further outside the limits |
| SlewRuns.ConstantCommandIsReached | src/external/cubemars_hardware_safe/src/safe_system.cpp:613-662 | On every run, a constant command is approached monotonically by exactly the slew steps of the writes, whatever their periods, and is reached exactly when these cover the gap |
| SlewRuns.RegularTravel | src/external/cubemars_hardware_safe/src/safe_system.cpp:639-650 | With a regular period those steps are the number of writes times one step |
| SlewRuns.HoldsWithoutCommand | src/external/cubemars_hardware_safe/src/safe_system.cpp:636-646 | A joint without a position command holds its target |
| SlewRuns.SlewBound | src/external/cubemars_hardware_safe/src/safe_system.cpp:613-662 | Over every run, each position frame is at most the maximum velocity times the period (50 ms at most) from the previous one, or from the measured position at the latest claim or activation, and no further outside the limits |
| SlewRuns.ReseedIsMeasured | src/external/cubemars_hardware_safe/src/safe_system.cpp:494-497 | An activation or a new claim starts the target at the measured position |
| SlewRuns.SentTargetIsInFrames | src/external/cubemars_hardware_safe/src/safe_system.cpp:630-652 | A claimed position joint does get its target on the bus in every active write |
| SlewRuns.TargetsAreKnownWhileActive | src/external/cubemars_hardware_safe/src/safe_system.cpp:630-638 | The retry of write() for a NaN target is dead code: an active component always has its targets |
| StatusRuns.LastStatusIsLastDrain | src/external/cubemars_hardware_safe/src/safe_system.cpp:814-854 | On every run a joint's status fields are those of the latest drain, in an activation or a read, that had a frame of its motor: its time, last nonzero fault and last values |
| StatusRuns.LastNonzeroFaultMeaning | src/external/cubemars_hardware_safe/src/safe_system.cpp:814-854 | The fault kept from a batch is its last nonzero code, and 0 only if all are 0 |
| StatusRuns.WatchdogIsExact | src/external/cubemars_hardware_safe/src/safe_system.cpp:588-611 | With an open socket and no read error, a read keeps an active component active exactly if the frames drained in the run so far have every motor heard less than the timeout plus 1 ms ago, in its latest batch without a fault, and no joint is stalled |
| StatusRuns.BrokenSocketStops | src/external/cubemars_hardware_safe/src/safe_system.cpp:856-862 | A closed socket or a read error stops an active component in the same read |
| StatusRuns.MotionFollowsStatus | src/external/cubemars_hardware_safe/src/safe_system.cpp:856-890 | Detection latency, for every motion frame of every run, also before the first read: it is sent less than status timeout + 1 ms + the time since the latest check (a read or the activation) after each motor was last heard, without a fault, in the frames drained up to that check |
| StatusRuns.FaultAfterActivation | src/external/cubemars_hardware_safe/src/safe_system.cpp:490-500 | After a successful activation a joint's fault is that of the last drain of zero_joints() that heard its motor, and 0 if none did |
| StatusRuns.OriginIsConfirmed | src/external/cubemars_hardware_safe/src/safe_system.cpp:988-1010 | A joint that a successful activation has zeroed was heard in a drain that began after its origin was sent, at most 1 degree from 0 |
| StatusRuns.FaultWhileZeroingIsUnseen | src/external/cubemars_hardware_safe/src/safe_system.cpp:962-1041 | A run whose activation, draining before its origin and after it, succeeds although a motor reports a fault with the status that confirms the origin: zero_joints() looks at positions alone |
| GuardRuns.StallGuardIsExact | src/external/cubemars_hardware_safe/src/safe_system.cpp:892-924 | The stall guard fires exactly if some guarded joint has pushed at every read since some read of this activation that is at least the stall time ago |
| GuardRuns.ReleasesUntilDue | src/external/cubemars_hardware_safe/src/safe_system.cpp:757-771 | A released joint keeps releasing until the first write at or after its release time, for every schedule |
| GuardRuns.ReleaseSequence | src/external/cubemars_hardware_safe/src/safe_system.cpp:757-771 | For every schedule of writes, a released joint's motor gets zero speed until the release time, then exactly one release, then nothing |
| GuardRuns.CutOffJointGetsReleaseOnly | src/external/cubemars_hardware_safe/src/safe_system.cpp:621-652 | In each write, a joint without a velocity or effort claim whose position write() does not pass on gets its release frame and nothing else |
| GuardRuns.FramesOfJoint | src/external/cubemars_hardware_safe/src/safe_system.cpp:613-653 | In each write a joint's motor gets its release frame, if it is being released, and behind it the upstream frames of the interfaces controllers hold, and nothing else |
| ReleaseRuns.StopReleases | src/external/cubemars_hardware_safe/src/safe_system.cpp:536-586 | A switch that stops any interface of a joint releases it and withdraws its position claim, and leaves its other claimed interfaces to their controllers |
| ReleaseRuns.StoppedJointIsReleased | src/external/cubemars_hardware_safe/src/safe_system.cpp:536-586 | A switch that leaves no velocity or effort interface of the joint claimed: from then on its motor gets zero speed in every write of the braking time, one release, and nothing else until a switch concerns the joint again; a controller that keeps the position interface goes on holding it without effect |
| ReleaseRuns.ReleaseIsExact | src/external/cubemars_hardware_safe/src/safe_system.cpp:559-583 | Every continuation of the run that leaves the joint alone gives it the release alone, if and only if the switch left neither its velocity nor its effort interface claimed |
| ReleaseRuns.PartlyStoppedJointGetsBoth | src/external/cubemars_hardware_safe/src/safe_system.cpp:621-653 | In a write of a joint that is being released, a command on an interface still claimed is sent behind the release frame; and that interface is velocity or effort, never position |
| CommandRuns.WriteTellsCommands | src/external/cubemars_hardware_safe/src/safe_system.cpp:613-653 | In every write of every run, the motion frames to a joint's motor are, on each interface that controllers hold, the joint's velocity, effort or slewed target times its direction, once, and nothing else |
| CommandRuns.LastCommand | src/external/cubemars_hardware_safe/src/safe_system.cpp:468-500 | Every command a joint still has was given by the last Command step for it, with no activation past wait_for_status() and no stop of the joint since |
| CommandRuns.CommandIsKept | src/external/cubemars_hardware_safe/src/safe_system.cpp:536-586 | And a command given since then is kept |
| CommandRuns.NoStaleCommands | src/external/cubemars_hardware_safe/src/safe_system.cpp:476-487 | On every run, each velocity or effort frame carries, in the motor's sign, the value of a command given since the last successful activation and since the last switch that stopped the joint |
| CommandRuns.FreshCommandsAreSent | src/external/cubemars_hardware_safe/src/safe_system.cpp:613-653 | And such a command does reach the motor in every write while a controller holds the interface |
| ServoCodec.StatusRoundTrip | src/iot_robot_drivers/iot_robot_drivers/fake_cubemars.py:80-94 | Decoding an encoded status gives position, speed and current back within half a count of the saturated input, and the rest exactly |
| ServoCodec.StatusFrameRoundTrip | src/iot_robot_drivers/iot_robot_drivers/cubemars.py:118-129 | Encoding a decoded status frame restores it exactly if and only if its position is within +-3200 degrees |
| ServoCodec.CommandRoundTrip | src/iot_robot_drivers/iot_robot_drivers/fake_cubemars.py:97-137 | Decoding an encoded command truncates toward zero by less than a unit; encoding fails exactly when the count does not fit |
| ServoCodec.PositionSpeedFields | src/iot_robot_drivers/iot_robot_drivers/fake_cubemars.py:97-137 | A position-speed frame exists exactly if its three fields fit, and holds position, speed and acceleration in this order |
| ServoCodec.SpeedFields | src/iot_robot_drivers/iot_robot_drivers/cubemars.py:67-77 | The tools' speed frames exist exactly below 100000 electrical rpm, and are read back as the whole number toward zero |
| ServoCodec.CppPacksLikePython | src/external/cubemars_hardware_safe/src/safe_system.cpp:748-755 | The C++ shifts and Python's struct give the same four bytes for every int32 |
| ServoCodec.CppUnpacksLikePython | src/external/cubemars_hardware_safe/src/safe_system.cpp:845-849 | The C++ int16 and int8 casts read what Python's struct reads |
| ServoCodec.StopFramesAgree | src/iot_robot_drivers/iot_robot_drivers/cubemars.py:67-77 | Plugin and tools put the same stop bytes on the bus, and the motor reads them as zero speed, zero current and a temporary origin |
| StopMotors.CanBus.StopMotors | src/iot_robot_drivers/iot_robot_drivers/cubemars.py:80-94 | The tools' stop sends the plugin's bytes, rounds and releases, or after an OSError a first part of them |
| StopMotors.StopBytesAreRounds | src/iot_robot_drivers/iot_robot_drivers/cubemars.py:80-94 | The plugin's brake-then-release frames, as bytes, are the tools' speed rounds and release round |
| FakeMotor.FakeCubeMarsMotor.Command | src/iot_robot_drivers/iot_robot_drivers/fake_cubemars.py:232-275 | A command changes the motor as specified; ignored exactly for malformed frames, ignored origins and faults |
| FakeMotor.FakeCubeMarsMotor.Step | src/iot_robot_drivers/iot_robot_drivers/fake_cubemars.py:277-297 | A time step moves the motor as specified in each mode |
| FakeMotor.FakeCubeMarsMotor.PowerCycle | src/iot_robot_drivers/iot_robot_drivers/fake_cubemars.py:224-230 | A power cycle forgets everything but the permanent origin |
| MotorModes.StatusReachesJoint | src/external/cubemars_hardware_safe/src/safe_system.cpp:814-854 | A motor's own status frame, drained by the plugin, gives its joint the position and current within half a count, the temperature and the fault, and the torque of that current |
| MotorModes.ForeignStatusIsIgnored | src/external/cubemars_hardware_safe/src/safe_system.cpp:829-839 | Another motor's frame, a short read or a short frame changes nothing about a joint |
| MotorModes.SpeedFrameTurns | src/iot_robot_drivers/iot_robot_drivers/fake_cubemars.py:232-297 | A speed frame turns a motor at 6 degrees a second per electrical rpm over 140, for any sequence of ticks; zero stops and holds it |
| MotorModes.DutyIsSpeed | src/iot_robot_drivers/iot_robot_drivers/fake_cubemars.py:254-255 | A duty cycle is that part of 25200 electrical rpm |
| MotorModes.BrakeHolds | src/iot_robot_drivers/iot_robot_drivers/fake_cubemars.py:277-297 | The brake holds the motor and reports the braking current |
| MotorModes.CurrentCoasts | src/iot_robot_drivers/iot_robot_drivers/fake_cubemars.py:256-297 | A current does not hold the motor, which coasts; zero current releases it |
| MotorModes.PositionSpeedAims | src/iot_robot_drivers/iot_robot_drivers/fake_cubemars.py:265-272 | A position-speed frame aims at its position, at its own speed if that is neither zero nor beyond the position loop's |
| MotorModes.OriginsOverPowerCycles | src/iot_robot_drivers/iot_robot_drivers/fake_cubemars.py:224-250 | A temporary origin is forgotten by a power cycle, a permanent one survives it, and the default takes both back |
| Plant.ZeroingIsMotionless | src/external/cubemars_hardware_safe/src/safe_system.cpp:962-1041 | Release then set-origin leaves the joint in place under all later motion exactly if the motor was faulty, blocked or at rest, in whatever mode |
| Plant.ZeroedMotorReadsZero | src/iot_robot_drivers/iot_robot_drivers/fake_cubemars.py:232-297 | A zeroed motor at rest reads 0 for ever, in its status frames too |
| Plant.SetOriginAloneJumps | src/iot_robot_drivers/iot_robot_drivers/fake_cubemars.py:240-275 | Set-origin without the release moves a motor in position mode exactly if its target number is not 0 |
| Plant.ActivationZeroesInPlace | src/external/cubemars_hardware_safe/src/safe_system.cpp:490-493 | In every run, a successful activation leaves each zeroed joint's resting motor in place, reading 0 |
| Plant.TowardTargetAll | src/iot_robot_drivers/iot_robot_drivers/fake_cubemars.py:277-297 | Motion closes the gap to the target by speed times total time, never passing it |
| Plant.PositionFrameAims | src/iot_robot_drivers/iot_robot_drivers/fake_cubemars.py:97-137 | The bytes of a position frame aim the motor at the position in whole counts of 0.0001 degrees, toward zero |
| Plant.CycleTracks | src/external/cubemars_hardware_safe/src/safe_system.cpp:639-650 | Over one write period the motor does not pass the number the frame gave it, stays within one slew step of the target plus its lag (one count at least), and lags no more at the end |
| Plant.ClosedLoopTracks | src/external/cubemars_hardware_safe/src/safe_system.cpp:639-650 | The same for every sequence of commands and cycles |
| Plant.SeedLag | src/external/cubemars_hardware_safe/src/safe_system.cpp:655-662 | A target seeded from a status frame starts within half a count, 0.05 degrees, of the motor |
| ClosedLoop.WriteSendsTarget | src/external/cubemars_hardware_safe/src/safe_system.cpp:613-653 | A write puts exactly one frame for a position-driven joint on the bus, the slew-limited target |
| ClosedLoop.RunIsClosedLoop | src/external/cubemars_hardware_safe/src/safe_system.cpp:613-653 | Every run of the plugin, seen by one driven joint and its motor that reads the bytes on the bus, is the closed loop |
| ClosedLoop.RunTracks | src/iot_robot_drivers/iot_robot_drivers/fake_cubemars.py:277-297 | On whole runs the motor never passes the target of a write, in whole counts of the frame, and stays within one slew step of the target itself, plus the lag it began with (one count at least) |
| DriverLock.DriverLockObject.Holder | src/iot_robot_web/iot_robot_web/logic.py:45-49 | holder() answers and forgets an expired driver as specified |
| DriverLock.DriverLockObject.Request | src/iot_robot_web/iot_robot_web/logic.py:51-58 | request() is granted exactly to the holder or to anybody when nobody holds the lock |
| DriverLock.DriverLockObject.Release | src/iot_robot_web/iot_robot_web/logic.py:60-66 | release() is True exactly for the recorded driver |
| DriverLock.LockRefinesLastAccepted | src/iot_robot_web/iot_robot_web/logic.py:31-66 | The mutable lock refines: client of the last accepted request within the timeout, unless released |
| DriverLock.AnswersFollowLastAccepted | src/iot_robot_web/iot_robot_web/logic.py:31-66 | At monotone times every answer of holder() and request() is that of the specification |
| DriverLock.AskingIsHarmless | src/iot_robot_web/iot_robot_web/logic.py:45-49 | Calls of the mutating holder() never change a later answer of holder() or request() |
| DriverLock.AskingChangesReleaseAnswer | src/iot_robot_web/iot_robot_web/logic.py:60-66 | They change release()'s answer exactly for an expired driver nobody asked about |
| DriverLock.DifferentDriversAreApart | src/iot_robot_web/iot_robot_web/logic.py:51-58 | Accepted requests of different clients without a release between them are at least the timeout apart |
| EchoFilter.EchoFilterObject.CheckEcho | src/iot_robot_web/iot_robot_web/logic.py:180-187 | The popleft loop and the comparison equal the specified filter step |
| EchoFilter.UnexpiredIsSuffix | src/iot_robot_web/iot_robot_web/logic.py:180-187 | Forgetting drops expired entries from the front only |
| RobotBridge.RobotBridgeNode.Drive | src/iot_robot_web/iot_robot_web/web_controller.py:370-385 | drive() under the lock refines the bridge step; answers e-stopped, busy or accepted exactly |
| RobotBridge.RobotBridgeNode.OnDriveTimer | src/iot_robot_web/iot_robot_web/web_controller.py:284-307 | The timer drops an old command, applies the guard and publishes as specified |
| RobotBridge.RobotBridgeNode.Release | src/iot_robot_web/iot_robot_web/web_controller.py:387-398 | Only the driver releases; the command is dropped and one zero twist sent |
| RobotBridge.RobotBridgeNode.SetEStop | src/iot_robot_web/iot_robot_web/web_controller.py:400-410 | Engaging drops the command and publishes zero and the state; the result says whether it changed |
| RobotBridge.RobotBridgeNode.OnEStop | src/iot_robot_web/iot_robot_web/web_controller.py:249-261 | A message is an echo, known already, or applied |
| RobotBridge.RobotBridgeNode.OnEStopTimer | src/iot_robot_web/iot_robot_web/web_controller.py:309-314 | Only an engaged stop is repeated |
| RobotBridge.RobotBridgeNode.OnEStopStartup | src/iot_robot_web/iot_robot_web/web_controller.py:316-320 | A release is published only if nothing has been heard |
| RobotBridge.RobotBridgeNode.AimGizmo | src/iot_robot_web/iot_robot_web/web_controller.py:412-425 | Aiming needs drive mode, no e-stop and the lock, and clamps |
| RobotBridge.RobotBridgeNode.OnRange | src/iot_robot_web/iot_robot_web/web_controller.py:226-233 | A range is stored with its time; minus infinity becomes 0 |
| RobotBridge.RobotBridgeNode.constructor | src/iot_robot_web/iot_robot_web/web_controller.py:152-215 | The bridge as created, with the announcement of a start with the e-stop engaged |
| ObstacleGuard.NearestIsLeast | src/iot_robot_web/iot_robot_web/logic.py:103-114 | The nearest obstacle is a valid reading and no valid reading is below it |
| ObstacleGuard.GuardMeaning | src/iot_robot_web/iot_robot_web/logic.py:117-138 | Forward motion is refused exactly if the guard is on and a side is too close, or lacks required data; reversing never is |
| ObstacleGuard.BrakingDistanceIsFarthest | src/iot_robot_web/iot_robot_web/logic.py:84-95 | The braking distance is exactly how far reaction and constant deceleration carry the robot |
| ObstacleGuard.StopDistanceIsKept | src/iot_robot_web/iot_robot_web/web_controller.py:297-307 | The stop distance is kept for all readings and times exactly if stop plus braking distance is within the 0.3 m cap |
| DriveSafety.RunKeepsInv | src/iot_robot_web/iot_robot_web/web_controller.py:344-350 | On every interleaving: e-stop implies no command and nothing published; commands and twists are bounded |
| DriveSafety.TwistsRespectLimits | src/iot_robot_web/iot_robot_web/logic.py:69-81 | No published twist exceeds the turbo factor times the limits, whatever clients send |
| DriveSafety.CommandSource | src/iot_robot_web/iot_robot_web/web_controller.py:370-385 | A command in force is that of some accepted drive request since which neither another command nor the e-stop came |
| DriveSafety.DriverKeepsLock | src/iot_robot_web/iot_robot_web/web_controller.py:370-385 | While that command is in force and young, its client still holds the lock: web calls in order on their thread, and the clock of the other thread read up to a skew before it got the lock |
| DriveSafety.NonzeroTwistHasLiveDriver | src/iot_robot_web/iot_robot_web/web_controller.py:284-307 | Every nonzero twist has a live driver: an accepted request younger than the command timeout, whose client holds the lock now |
| DriveSafety.SkewBoundIsExact | src/iot_robot_web/iot_robot_web/web_controller.py:284-307 | Reading the clock before taking the lock is harmless exactly if command timeout + the longest wait for the lock <= driver timeout, on the two threads of the program; a run shows it otherwise |
| DriveSafety.NothingResumes | src/iot_robot_web/iot_robot_web/web_controller.py:344-350 | Without a command, only a newly accepted drive request makes the bridge send anything but zero |
| DriveSafety.EStopSilences | src/iot_robot_web/iot_robot_web/web_controller.py:344-350 | From an engaged e-stop on, released or not, the same silence until a new drive request |
| DriveSafety.RangeSource | src/iot_robot_web/iot_robot_web/web_controller.py:226-233 | The latest range of a side is the last message of that side: NaN as a fault, minus infinity as 0, infinity as no echo |
| DriveSafety.ForwardTwistIsClear | src/iot_robot_web/iot_robot_web/web_controller.py:297-307 | A forward twist implies on every side a fresh, non-faulty reading at least min(stop + braking, 0.3) away |
| TwistRuns.LastTwistLaw | src/iot_robot_web/iot_robot_web/web_controller.py:284-307 | On every run, what counts as published is the last twist sent; when nothing does, the last twist was zero or there was none, unless another publisher engaged the e-stop after it |
| TwistRuns.SilentDriverStops | src/iot_robot_web/iot_robot_web/web_controller.py:287-296 | The dead-man acts: at a timer tick without an accepted drive request younger than the command timeout, the last twist is zero afterwards |
| TwistRuns.YoungCommandIsPublished | src/iot_robot_web/iot_robot_web/web_controller.py:297-307 | A young command in force is published at each tick, whole unless a side is too close or lacks required data, and without its forward part then |
| TwistRuns.ReleaseStops | src/iot_robot_web/iot_robot_web/web_controller.py:387-398 | A release by the driver leaves no command and a zero last twist, and a disconnect a free lock; anybody else's release changes nothing |
| TwistRuns.CommandsAreKept | src/iot_robot_web/iot_robot_web/web_controller.py:370-398 | A command is only taken away by an accepted request, its driver, an engaged e-stop or its age; requests of other clients change nothing |
| TwistRuns.GuardNeedsCommand | src/iot_robot_web/iot_robot_web/web_controller.py:284-307 | On every run the guard is only reported while a command is in force |
| TwistRuns.EngagingStopsFirst | src/iot_robot_web/iot_robot_web/web_controller.py:400-410 | Engaging from the page sends a zero twist before the message that locks the multiplexer |
| TwistRuns.CommandOfAxes | src/iot_robot_web/iot_robot_web/logic.py:69-81 | What a drive request asks for, over its axes: products with the speed factor and the limits, saturated beyond the ends and 0 for anything but a finite number |
| TwistRuns.AimsRespectLimits | src/iot_robot_web/iot_robot_web/web_controller.py:412-425 | An accepted aim is sent within the limits, as it is if it lies within them; a refused one sends nothing |
| TwistRuns.ModeIsLastSet | src/iot_robot_web/iot_robot_web/web_controller.py:427-435 | The mode is the one set last |
| TwistRuns.KnownLaw | src/iot_robot_web/iot_robot_web/web_controller.py:309-350 | The e-stop counts as known exactly if __init__ or a later step has said something about it, or another publisher was heard; until then it is released |
| TwistRuns.TimersSpeak | src/iot_robot_web/iot_robot_web/web_controller.py:309-320 | The heartbeat repeats an engaged e-stop and nothing else; the start-up timer says released exactly if nothing has been said before |
| TwistRuns.ReleasesAreDeliberate | src/iot_robot_web/iot_robot_web/web_controller.py:309-320 | "Released" goes out only when a client releases the e-stop, or from the start-up timer when nothing has been said before |
| EchoRuns.LocalEffect | src/iot_robot_web/iot_robot_web/web_controller.py:339-350 | Publishing, recording the echo and the state go together in every operation |
| EchoRuns.OutstandingIsSuffix | src/iot_robot_web/iot_robot_web/logic.py:163-187 | The expected echoes are always the newest of the node's own messages in flight |
| EchoRuns.EchoesExpire | src/iot_robot_web/iot_robot_web/logic.py:163-187 | A message that comes more than a second after all expected echoes were sent counts as another publisher's |
| EchoRuns.EchoConservation | src/iot_robot_web/iot_robot_web/web_controller.py:249-261 | Whenever the channel is empty, the messages acted on as foreign are, as a multiset, those that were foreign |
| EchoRuns.OwnMessagesAreInert | src/iot_robot_web/iot_robot_web/web_controller.py:249-261 | Without other publishers, no own message changes the node |
| EchoRuns.LastForeignMessageWins | docs/web.md:138-142 | If another publisher spoke last, the node agrees with the topic once everything is delivered |
| EchoRuns.LastOwnMessageWins | docs/web.md:135-145 | If the node spoke last, it agrees with the topic in the end exactly if, of the messages then in flight, one behind the last match of the expected echoes has the new value, or none is behind it and the last one acted on before, if any, has it; earlier own messages in flight included |
| EchoRuns.OwnAreFound | src/iot_robot_web/iot_robot_web/logic.py:163-187 | The expected echoes are always found in the channel one after the other, even if other messages are taken for them |
| EchoRuns.MirrorCanDisagree | src/iot_robot_web/iot_robot_web/web_controller.py:249-261 | A concrete run in which the node ends up showing the opposite of the topic |
| EchoRuns.RepeatedStopCanDisagree | src/iot_robot_web/iot_robot_web/web_controller.py:309-314 | Another one: an engaged stop that the node itself repeats last, and the node ends up released |
| Stm32Protocol.ParseFields | src/iot_robot_drivers/iot_robot_drivers/stm32_protocol.py:47-77 | The loop that fills a dictionary computes the specified reading |
| Stm32Protocol.FieldMapMeaning | src/iot_robot_drivers/iot_robot_drivers/stm32_protocol.py:57-63 | The dictionary exists exactly if every field is well formed and no key repeats, and holds exactly what the fields give |
| Stm32Protocol.ParseLineMeaning | src/iot_robot_drivers/iot_robot_drivers/stm32_protocol.py:53-77 | A line means what its fields mean; white space around line, keys and values is nothing |
| Stm32Protocol.KeyValueMeaning | src/iot_robot_drivers/iot_robot_drivers/stm32_protocol.py:57-63 | A field is a key and a value around its first colon, without white space at their ends; the key is not empty |
| Stm32Protocol.ReadingNeeds | src/iot_robot_drivers/iot_robot_drivers/stm32_protocol.py:53-77 | A line gives a reading exactly if it is no comment, its fields are well formed and both distances, and the voltage if any, are finite numbers; its values are theirs, positive distances only |
| Stm32Protocol.FieldOrderIsIrrelevant | src/iot_robot_drivers/iot_robot_drivers/stm32_protocol.py:57-63 | Any reordering of the fields parses the same, unless it makes or unmakes a comment |
| Stm32Protocol.UnknownFieldIsIgnored | src/iot_robot_drivers/iot_robot_drivers/stm32_protocol.py:47-52 | A further field with a new unknown key changes nothing |
| Stm32Protocol.StrippingTwice | src/iot_robot_drivers/iot_robot_drivers/stm32_protocol.py:80-118 | Stripping a comment before parsing it, as the node does, changes nothing |
| Stm32RoundTrip.ParsePrintedReading | src/iot_robot_drivers/iot_robot_drivers/fake_stm32.py:44-48 | Parsing inverts printing for all tenths and hundredths; a non-positive distance is no echo |
| Stm32RoundTrip.CommentsAreUnderstood | src/iot_robot_drivers/iot_robot_drivers/stm32_protocol.py:98-118 | For any side word and any detail: a warning about a side is a fault, only the recovery line ends one, and everything else tells nothing |
| Stm32RoundTrip.BareCommentsTellNothing | src/iot_robot_drivers/iot_robot_drivers/stm32_protocol.py:98-118 | A warning without a detail tells nothing |
| Stm32RoundTrip.BannersNameTheFirmware | src/iot_robot_drivers/iot_robot_drivers/stm32_protocol.py:84-86 | A comment is a banner exactly if it starts with the name of the firmware |
| LineReader.ReadLines | src/iot_robot_drivers/iot_robot_drivers/stm32_bridge.py:160-203 | The reading loop hands on the specified lines |
| LineReader.LinesSurviveExactly | src/iot_robot_drivers/iot_robot_drivers/stm32_bridge.py:160-203 | Exactly the stream's lines are handed on for every chunking if and only if no line has more than 256 bytes before its newline |
| SensorFault.Stm32BridgeNode.HandleLine | src/iot_robot_drivers/iot_robot_drivers/stm32_bridge.py:205-231 | A reading publishes both ranges; a comment updates the fault flags; anything else does nothing |
| SensorFault.Stm32BridgeNode.HandleComment | src/iot_robot_drivers/iot_robot_drivers/stm32_bridge.py:233-250 | Status first, then the banner |
| SensorFault.Stm32BridgeNode.Connected | src/iot_robot_drivers/iot_robot_drivers/stm32_bridge.py:134-158 | A connection clears the fault flags |
| SensorFault.RangeMeaning | src/iot_robot_drivers/iot_robot_drivers/stm32_protocol.py:121-136 | A range is NaN exactly for a reported fault, infinite exactly for no echo within reach, else the distance but at least the minimum |
| SensorFault.ReadingsReachTheirTopics | src/iot_robot_drivers/iot_robot_drivers/stm32_bridge.py:216-227 | Every line the board can print puts D1 on the left topic and D2 on the right one, in metres by REP 117, and NaN for a flagged side |
| SensorFault.FaultFlagIsExact | src/iot_robot_drivers/iot_robot_drivers/stm32_bridge.py:233-250 | A side is flagged exactly if a warning came after the last recovery line, banner or connection |
| SensorFault.FaultReachesTheGuard | src/iot_robot_web/iot_robot_web/web_controller.py:226-233 | From the first range delivered after the warning, the web bridge holds a fault for that side, even if messages are lost |
| SensorFault.SensorFaultStopsForwardMotion | src/iot_robot_web/iot_robot_web/logic.py:117-138 | End to end: from then until the fault ends, no forward velocity is published |
| MotorConfig.Parse | src/iot_robot_drivers/iot_robot_drivers/motor_config.py:129-168 | parse() succeeds exactly on good files, and otherwise reports every problem and nothing else |
| MotorConfig.ParseMotor | src/iot_robot_drivers/iot_robot_drivers/motor_config.py:171-202 | An entry's problems are reported exactly, and it gives a motor exactly if it has none |
| MotorConfig.ParseJoints | src/iot_robot_drivers/iot_robot_drivers/motor_config.py:143-151 | The loop over the joints collects the motors in file order and all joint problems |
| MotorConfig.FindSharedIds | src/iot_robot_drivers/iot_robot_drivers/motor_config.py:157-163 | The dictionary loop reports each repetition of an ID with the first joint that has it |
| MotorConfig.JointsAndIdsCorrespond | src/iot_robot_drivers/iot_robot_drivers/motor_config.py:60-96 | In a good file every entry gives its motor, IDs are in range, and joints and CAN IDs determine each other |
| MotorConfig.GoodEntryMeaning | src/iot_robot_drivers/iot_robot_drivers/motor_config.py:171-202 | An entry is accepted exactly with a CAN ID from 1 to 254, a direction of 1 or -1, at most a zero flag beside them, which only a gizmo joint may set; and the motor has exactly these values |
| MotorConfig.GoodFileMeaning | src/iot_robot_drivers/iot_robot_drivers/motor_config.py:129-168 | A file with unique keys is good exactly if it holds nothing but motors, lists the wheels (and the gizmo if required) and no other joints, each with a good entry, and no CAN ID twice |
| CanIdWriter.RewriteLines | src/iot_robot_drivers/iot_robot_drivers/motor_config.py:259-283 | The in-place scan computes the specified rewrite |
| CanIdWriter.JointOfMeaning | src/iot_robot_drivers/iot_robot_drivers/motor_config.py:259-283 | A can_id line belongs to a joint exactly if the last line of the motors section at the indentation of its first one names that joint, and it has another indentation itself |
| CanIdWriter.MotorsFile.WriteCanIds | src/iot_robot_drivers/iot_robot_drivers/motor_config.py:241-307 | All or nothing: the file is rewritten exactly if parse() finds the new document good and it has every requested ID, and else untouched |
| CanIdWriter.AcceptedIdsAreDistinct | src/iot_robot_drivers/iot_robot_drivers/motor_config.py:241-257 | After an accepted write the requested IDs are in range and differ from each other and from those of all other joints |
| CanIdWriter.SharedIdsAreRefused | src/iot_robot_drivers/iot_robot_drivers/motor_config.py:241-257 | An assignment of one ID to two joints is refused, whatever the file |
| CanIdWriter.OnlyRequestedIdsChange | src/iot_robot_drivers/iot_robot_drivers/motor_config.py:241-257 | Only the value token of requested can_id lines changes, to the new ID |
| CanIdWriter.RewritesCompose | src/iot_robot_drivers/iot_robot_drivers/motor_config.py:259-283 | Two rewrites are one, the second having the last word; so a swap takes one pass |
| CanIdWriter.WritingTwiceIsWritingOnce | src/iot_robot_drivers/iot_robot_drivers/motor_config.py:241-307 | Writing is idempotent, in text and in acceptance |
| CanIdWriter.WritingBackRestores | src/iot_robot_drivers/iot_robot_drivers/motor_config.py:241-257 | Writing other IDs and then the former ones restores the file to the letter |
| Identify.AskJoint | src/iot_robot_drivers/iot_robot_drivers/cubemars_tool.py:275-298 | The loop returns the first accepted reply |
| Identify.AssignJoints | src/iot_robot_drivers/iot_robot_drivers/cubemars_tool.py:324-337 | The loop makes exactly the decisions of the session of these IDs and replies; the assignment is injective and stays within joints and IDs |
| Identify.AssignedByLastDecision | src/iot_robot_drivers/iot_robot_drivers/cubemars_tool.py:324-337 | A joint has an ID exactly if it is the last joint decided for that ID |
| Identify.EveryAnswerCounts | src/iot_robot_drivers/iot_robot_drivers/cubemars_tool.py:275-337 | A session with one understood answer for each ID, a name, a number or a skip, decides exactly what the answers say, whatever repeats and unclear replies come in between |
| Identify.QuittingEnds | src/iot_robot_drivers/iot_robot_drivers/cubemars_tool.py:275-337 | Quitting or the end of the input ends the session, and decides nothing more |
| Identify.TakenJointIsRefused | src/iot_robot_drivers/iot_robot_drivers/cubemars_tool.py:292-297 | An answer naming another motor's joint is refused and the question asked again |
| ExposureConflict.Merge | src/external/camera_ros/src/ParameterConflictHandler.cpp:64-81 | The loop keeps the new parameters and the old ones they do not override |
| ExposureConflict.ParameterConflictHandler.ResolveDefaults | src/external/camera_ros/src/ParameterConflictHandler.cpp:90-113 | Defaults in conflict lose the time, which is stored |
| ExposureConflict.ParameterConflictHandler.ResolveOverrides | src/external/camera_ros/src/ParameterConflictHandler.cpp:115-138 | Overrides in conflict switch to manual; a stored time is given back |
| ExposureConflict.ParameterConflictHandler.Restore | src/external/camera_ros/src/ParameterConflictHandler.cpp:157-181 | The request is extended by the stored time or by an unset one |
| ExposureConflict.ParameterConflictHandler.StoreCommitOrRevert | src/external/camera_ros/src/ParameterConflictHandler.cpp:183-194 | Commit takes the temporary store, revert drops it |
| ExposureConflict.ParameterHandler.SetParametersAtomically | src/external/camera_ros/src/ParameterHandler.cpp:273-304 | One attempt with both callbacks computes the specified transaction |
| ExposureConflict.RefusesMeaning | src/external/camera_ros/src/ParameterConflictHandler.cpp:140-155 | check() refuses exactly a set time with the effective mode automatic |
| ExposureConflict.AttemptIsATransaction | src/external/camera_ros/src/ParameterHandler.cpp:286-304 | Every attempt leaves tmp_store empty; a refused one leaves store and parameters as they were |
| ExposureConflict.InterruptionLeavesTrace | src/external/camera_ros/src/ParameterConflictHandler.cpp:157-166 | If only the first callback runs, the next attempt meets assert(tmp_store.empty()) exactly if a stored value is left |
| ExposureConflict.InterruptionIsForgotten | src/external/camera_ros/src/ParameterConflictHandler.cpp:157-166 | Without assertions it changes no later attempt |
| ExposureConflict.RequestIsSafeExactly | src/external/camera_ros/src/ParameterConflictHandler.cpp:140-181 | A condition on the request alone is exact over runs: a request that meets it brings automatic exposure and a set time together in no run, and for any other there is a run from the declaration on in which it does |
| ExposureConflict.DistinctIsSafe | src/external/camera_ros/src/ParameterConflictHandler.cpp:140-181 | A request that names each parameter once is safe |
| ExposureConflict.SwitchingTwiceBringsBoth | src/external/camera_ros/src/ParameterConflictHandler.cpp:140-181 | The run: conflicting defaults are declared, one request switches to manual and to automatic, and the camera is automatic with the default time set |
| ExposureConflict.NeverBoth | src/external/camera_ros/src/ParameterHandler.cpp:183-207 | After declaration and every safe attempt, accepted, refused or interrupted, automatic exposure and a set time never coexist |
| ExposureConflict.AlwaysProper | src/external/camera_ros/src/ParameterHandler.cpp:183-207 | In every run the mode is one the camera knows and the time is within its range, whatever was asked for |
| ExposureConflict.DefaultTimeIsGivenBack | src/external/camera_ros/src/ParameterConflictHandler.cpp:90-113 | A default time put aside is given back unchanged by the first accepted bare switch to manual |
| ExposureConflict.DeclarationKeepsOrGivesBack | src/external/camera_ros/src/ParameterHandler.cpp:183-207 | After declaration the default time is in store; or, if the overrides switch to manual without a time, it is in force exactly if it is within range and no other parameter is refused, and else lost |
| ExposureConflict.DeclarationCanLoseTheTime | src/external/camera_ros/src/ParameterHandler.cpp:183-207 | A declaration that loses it: a bare switch to manual beside a parameter that is refused |
| ExposureConflict.StartingExposure | src/external/camera_ros/src/ParameterHandler.cpp:183-207 | The mode and time a camera starts with, for all defaults and overrides: a wanted time brings manual exposure, a default one steps back before automatic, and comes with manual when no other is given |

## Left out

- The upstream cubemars_hardware plugin is not part of this model. It is a contract: its write sends
  one frame per claimed base command that is not NaN, its conversion of positions inverts the
  plugin's own, and its callbacks succeed or fail arbitrarily.
- Sockets, CAN filters, interface checks and the frames' time on the bus: sending may fail, and
  receiving returns some batch of frames.
- Parsing of the plugin's hardware parameters and URDF limits (safe_system.cpp:99-194, 272-336),
  exported state interfaces, log messages, and the text of errors.
- FakeMotor.FakeCubeMarsMotor.Step: the coasting curve exp(-dt/tau) is some factor in (0, 1].
- Plant.ClosedLoopTracks: leaves out floating-point rounding.
- ClosedLoop.RunTracks: takes the motion between two writes to last at least the write period, as
  the property needs; a motor whose ticks stop earlier is not covered. Targets are within what the
  int32 of a position frame holds, some 596 turns, beyond which the frame's content is upstream's.
- ServoCodec.StatusRoundTrip: rounding is exact to-even rounding of reals; NaN inputs are left out.
- DriveSafety.NonzeroTwistHasLiveDriver: numbers are reals, so the products of scale_command do not
  round.
- EchoRuns.EchoConservation: delivery is first-in first-out, lossless and within the echo timeout;
  a late or lost message is not covered.
- Stm32Protocol.ParseFields: number notations other than plain fixed-point decimals (exponents,
  "inf", underscores) go to a parameter; non-ASCII white space is left out.
- LineReader.ReadLines: the log of stale data and the shutdown checks are left out.
- SensorFault.SensorFaultStopsForwardMotion: battery messages and header stamps are left out.
- MotorConfig.Parse: starts from the loaded YAML tree with texts as keys; the YAML grammar, the
  messages' text and repeated keys inside lists (which are scalars here) are left out.
- CanIdWriter.MotorsFile.WriteCanIds: lines are classified by indentation, key, value and tail
  instead of by regular expressions; the YAML reader is a parameter, and the temporary file behind
  the atomic replacement is left out.
- Identify.AssignJoints: the wiggling of the motors between questions is left out.
- ExposureConflict.ParameterHandler.SetParametersAtomically: models the build with rclcpp's separate
  pre-set and post-set callbacks, and a camera that has both controls; other parameters only take
  part through one flag that says whether they are acceptable. A moved-from map counts as empty.
- The browser page, video streaming, image topics, follow processes, odometry and battery telemetry:
  plumbing that decides no motion.
- Gizmo motion during an e-stop: switching to drive mode recentres the camera regardless, so nothing
  is claimed about it.
- The perception nodes, the target follower, the IMU driver and the camera's format conversion.
