/** The tools' stop: the Python counterpart of the plugin's blocking stop, on a bus whose sends
    can fail.
 */
module StopMotors {
  import opened Numbers
  import opened ServoCodec
  import J = Joints
  import S = SafeSpec

  /** The bytes of the plugin's stop frames. */
  function WireAll(frames: seq<J.Frame>): seq<Frame>
    requires forall f :: f in frames ==> f.canId < 256 && !f.Motion?
  {
    seq(|frames|, i requires 0 <= i < |frames| => Wire(frames[i]))
  }

  lemma {:induction false} StopFramesAreWireable(ids: seq<Byte>, rounds: nat)
    ensures forall f :: f in S.SpeedRounds(ids, rounds) ==> f.ZeroSpeed? && f.canId < 256
    ensures forall f :: f in S.ReleaseRound(ids) ==> f.Release? && f.canId < 256
  {
    if rounds > 0 {
      StopFramesAreWireable(ids, rounds - 1);
      assert forall f :: f in S.SpeedRound(ids) ==> f.ZeroSpeed? && f.canId < 256;
    }
  }

  /** What the plugin sends to these motors, as bytes. */
  function StopBytes(ids: seq<Byte>, rounds: nat): seq<Frame> {
    StopFramesAreWireable(ids, rounds);
    WireAll(S.BrakeThenRelease(ids, rounds))
  }

  function SpeedBytes(ids: seq<Byte>): seq<Frame> {
    seq(|ids|, i requires 0 <= i < |ids| => Wire(J.ZeroSpeed(ids[i])))
  }

  function ReleaseBytes(ids: seq<Byte>): seq<Frame> {
    seq(|ids|, i requires 0 <= i < |ids| => Wire(J.Release(ids[i])))
  }

  function Rounds(ids: seq<Byte>, rounds: nat): seq<Frame> {
    if rounds == 0 then [] else Rounds(ids, rounds - 1) + SpeedBytes(ids)
  }

  lemma {:induction false} StopBytesAreRounds(ids: seq<Byte>, rounds: nat)
    ensures StopBytes(ids, rounds) == Rounds(ids, rounds) + ReleaseBytes(ids)
  {
    StopFramesAreWireable(ids, rounds);
    RoundsAreWired(ids, rounds);
    assert WireAll(S.ReleaseRound(ids)) == ReleaseBytes(ids);
  }

  lemma {:induction false} RoundsAreWired(ids: seq<Byte>, rounds: nat)
    ensures forall f :: f in S.SpeedRounds(ids, rounds) ==> f.canId < 256 && !f.Motion?
    ensures WireAll(S.SpeedRounds(ids, rounds)) == Rounds(ids, rounds)
  {
    StopFramesAreWireable(ids, rounds);
    if rounds > 0 {
      RoundsAreWired(ids, rounds - 1);
      StopFramesAreWireable(ids, 1);
      assert S.SpeedRounds(ids, 1) == S.SpeedRounds(ids, 0) + S.SpeedRound(ids) == S.SpeedRound(ids);
      assert WireAll(S.SpeedRound(ids)) == SpeedBytes(ids);
    }
  }

  /** A bus, with the frames it took and the clock in nanoseconds. */
  class CanBus {
    var clock: int
    ghost var sent: seq<Frame>

    method Now() returns (now: int)
      modifies this`clock
      ensures old(clock) <= now == clock
    {
      var passed: int :| 0 <= passed;
      clock := clock + passed;
      now := clock;
    }

    method Sleep(duration: nat)
      modifies this`clock
      ensures clock >= old(clock) + duration
    {
      var late: int :| 0 <= late;
      clock := clock + duration + late;
    }

    /** False is the OSError of a frame that cannot be sent. */
    method Send(f: Frame) returns (ok: bool)
      modifies this`sent
      ensures sent == if ok then old(sent) + [f] else old(sent)
    {
      ok := *;
      sent := if ok then sent + [f] else sent;
    }

    method SendRound(ids: seq<Byte>, speed: bool) returns (ok: bool)
      modifies this`sent
      ensures old(sent) <= sent <= old(sent) + if speed then SpeedBytes(ids) else ReleaseBytes(ids)
      ensures ok ==> sent == old(sent) + if speed then SpeedBytes(ids) else ReleaseBytes(ids)
    {
      hide EncodeSpeed;
      hide EncodeRelease;
      hide DecodeCommand;
      hide Wire;
      ghost var round := if speed then SpeedBytes(ids) else ReleaseBytes(ids);
      for i := 0 to |ids|
        invariant sent == old(sent) + round[..i]
      {
        StopFramesAgree(ids[i]);
        var f := if speed then EncodeSpeed(ids[i], 0.0).value else EncodeRelease(ids[i]);
        assert f == round[i] && round[..i + 1] == round[..i] + [round[i]];
        ok := Send(f);
        if !ok {
          return;
        }
      }
      assert round[..|ids|] == round;
      ok := true;
    }

    method Brake(ids: seq<Byte>, brake: int, period: nat) returns (ok: bool, ghost rounds: nat)
      requires period > 0
      modifies this`clock, this`sent
      ensures rounds >= 1 && (rounds > 1 ==> Pauses(rounds - 1, period) <= brake)
      ensures old(sent) <= sent <= old(sent) + Rounds(ids, rounds)
      ensures ok ==> sent == old(sent) + Rounds(ids, rounds)
      ensures ok ==> clock > old(clock) + brake - period
    {
      var start := Now();
      var end := start + brake;
      rounds := 0;
      assert Pauses(0, period) == 0;
      hide SpeedBytes;
      hide ReleaseBytes;
      hide Pauses;
      hide Rounds;
      NoRound(ids);
      while true
        invariant sent == old(sent) + Rounds(ids, rounds)
        invariant rounds > 0 ==> Pauses(rounds, period) <= brake
        invariant start + Pauses(rounds, period) <= clock
        decreases end - clock
      {
        ghost var before := sent;
        ok := SendRound(ids, true);
        OneRoundMore(old(sent), before, sent, ids, rounds);
        rounds := rounds + 1;
        if !ok {
          return;
        }
        var now := Now();
        if now + period > end {
          return;
        }
        Sleep(period);
        OnePauseMore(rounds - 1, period);
      }
    }

    /** stop_motors(): the frames are those of the plugin, byte for byte, or, after an error, the
        first of them; the braking takes as many rounds as the plugin's, and as long. */
    method StopMotors(ids: seq<Byte>, brake: int, period: nat) returns (ok: bool, ghost rounds: nat)
      requires period > 0
      modifies this`clock, this`sent
      ensures 1 <= rounds <= MaxRounds(brake, period)
      ensures old(sent) <= sent <= old(sent) + StopBytes(ids, rounds)
      ensures ok ==> sent == old(sent) + StopBytes(ids, rounds)
      ensures ok ==> clock > old(clock) + brake - period
    {
      ok, rounds := Brake(ids, brake, period);
      RoundsWithin(rounds, brake, period);
      StopBytesAreRounds(ids, rounds);
      hide Pauses;
      hide MaxRounds;
      hide StopBytes;
      hide Rounds;
      hide ReleaseBytes;
      if ok {
        ok := SendRound(ids, false);
      }
    }
  }

  lemma NoRound(ids: seq<Byte>)
    ensures Rounds(ids, 0) == []
  {
  }

  /** A whole round or a first part of it, behind those that were sent since `start`. */
  lemma OneRoundMore(start: seq<Frame>, before: seq<Frame>, after: seq<Frame>, ids: seq<Byte>, rounds: nat)
    requires before == start + Rounds(ids, rounds) && before <= after <= before + SpeedBytes(ids)
    ensures start <= after <= start + Rounds(ids, rounds + 1)
    ensures after == before + SpeedBytes(ids) ==> after == start + Rounds(ids, rounds + 1)
  {
    hide SpeedBytes;
    assert start + (Rounds(ids, rounds) + SpeedBytes(ids)) == before + SpeedBytes(ids);
  }

  /** How long n pauses take. */
  function Pauses(n: nat, period: nat): nat {
    n * period
  }

  lemma OnePauseMore(n: nat, period: nat)
    ensures Pauses(n + 1, period) == Pauses(n, period) + period
  {
  }

  /** The rounds that the braking time leaves room for. */
  function MaxRounds(brake: int, period: nat): nat
    requires period > 0
  {
    (if brake < 0 then 0 else brake) / period + 1
  }

  lemma RoundsWithin(rounds: nat, brake: int, period: nat)
    requires period > 0 && (rounds > 1 ==> Pauses(rounds - 1, period) <= brake)
    ensures rounds <= MaxRounds(brake, period)
  {
    if rounds > 1 {
      var q := brake / period;
      if rounds - 1 > q {
        Scales(q + 1, rounds - 1, period);
      }
    }
  }

  lemma Scales(x: nat, y: nat, period: nat)
    requires x <= y
    ensures x * period <= y * period
  {
  }
}
