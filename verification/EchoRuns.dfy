/** The shared /e_stop topic: a bridge that hears its own messages and those of other
    publishers on one first-in first-out channel.
 */
module EchoRuns {
  import opened Numbers
  import opened BridgeSpec
  import E = EchoFilter
  import G = ObstacleGuard

  /** A message on the topic. `own` and `at` are bookkeeping: the subscriber sees the value. */
  datatype Packet = Packet(own: bool, value: bool, at: real)

  datatype Net = Net(node: Bridge, channel: seq<Packet>)

  datatype NetOp =
    | Local(op: Op)
    | Foreign(value: bool, at: real)
    | Deliver(now: real)

  datatype Run = Run(nets: seq<Net>, ops: seq<NetOp>)

  function PacketOf(m: Message, at: real): seq<Packet> {
    if m.EStop? then [Packet(true, m.engaged, at)] else []
  }

  function OwnPackets(sent: seq<Message>, at: real): seq<Packet> {
    if sent == [] then [] else PacketOf(sent[0], at) + OwnPackets(sent[1..], at)
  }

  function TimeOf(op: Op): real {
    if op.SetMode? then 0.0 else op.now
  }

  function NetStep(n: Net, op: NetOp): Net
    requires op.Deliver? ==> n.channel != []
  {
    match op
    case Local(o) =>
      var r := Apply(n.node, o);
      Net(r.bridge, n.channel + OwnPackets(r.sent, TimeOf(o)))
    case Foreign(value, at) => n.(channel := n.channel + [Packet(false, value, at)])
    case Deliver(now) =>
      Net(AfterEStopMessage(n.node, n.channel[0].value, now), n.channel[1..])
  }

  /** The node's own messages still in flight. */
  function Own(channel: seq<Packet>): seq<E.Sent> {
    if channel == [] then []
    else if channel[0].own then [E.Sent(channel[0].value, channel[0].at)] + Own(channel[1..])
    else Own(channel[1..])
  }

  /** Nothing arrives later than the echo timeout after the node sent it. */
  ghost predicate InTime(channel: seq<Packet>, now: real) {
    forall s :: s in Own(channel) ==> now - s.at <= ECHO_TIMEOUT
  }

  ghost predicate StepAt(r: Run, i: int)
    requires |r.nets| == |r.ops| + 1 && 0 <= i < |r.ops|
  {
    && (r.ops[i].Local? ==> !r.ops[i].op.OnEStop?)
    && (r.ops[i].Deliver? ==> r.nets[i].channel != [] && InTime(r.nets[i].channel, r.ops[i].now))
    && r.nets[i + 1] == NetStep(r.nets[i], r.ops[i])
  }

  ghost predicate Started(n: Net) {
    exists cfg, e, now ::
      n == Net(Initial(cfg, e, now).bridge, OwnPackets(Initial(cfg, e, now).sent, now))
  }

  ghost predicate IsRun(r: Run) {
    && |r.nets| == |r.ops| + 1
    && Started(r.nets[0])
    && forall i :: 0 <= i < |r.ops| ==> StepAt(r, i)
  }

  // Single steps ----------------------------------------------------------------------

  lemma {:induction false} OwnConcat(a: seq<Packet>, b: seq<Packet>)
    ensures Own(a + b) == Own(a) + Own(b)
  {
    if a == [] {
      assert a + b == b;
    } else {
      assert (a + b)[1..] == a[1..] + b;
      OwnConcat(a[1..], b);
    }
  }

  ghost predicate Suffix(a: seq<E.Sent>, b: seq<E.Sent>) {
    |a| <= |b| && a == b[|b| - |a|..]
  }

  /** Of the messages of one operation, the last says which packet it put on the topic. */
  lemma PacketsOf(sent: seq<Message>, at: real)
    requires |sent| <= 2 && (|sent| == 2 ==> !sent[0].EStop?)
    ensures OwnPackets(sent, at) == if sent == [] then [] else PacketOf(sent[|sent| - 1], at)
  {
    if |sent| == 2 {
      assert sent[1..][1..] == [];
    }
  }

  /** Publishing on the topic, recording the echo and the state go together: an operation
      either does none of it, or publishes its new state and expects that echo. */
  lemma LocalEffect(b: Bridge, op: Op)
    requires !op.OnEStop?
    ensures var r := Apply(b, op);
            var packets := OwnPackets(r.sent, TimeOf(op));
            if packets == [] then r.bridge.outstanding == b.outstanding && r.bridge.estop == b.estop
            else packets == [Packet(true, r.bridge.estop, TimeOf(op))]
                 && r.bridge.outstanding == b.outstanding + [E.Sent(r.bridge.estop, TimeOf(op))]
  {
    hide OwnPackets;
    hide ScaledCommand;
    hide PyClamp;
    hide G.GuardCommand;
    hide FreshRanges;
    hide EffectiveStop;
    PacketsOf(Apply(b, op).sent, TimeOf(op));
  }

  /** In time, no echo is forgotten, so delivery treats a message by the oldest echo alone. */
  lemma DeliveryEffect(n: Net, now: real)
    requires n.channel != [] && InTime(n.channel, now) && Suffix(n.node.outstanding, Own(n.channel))
    ensures var out, v := n.node.outstanding, n.channel[0].value;
            var after := AfterEStopMessage(n.node, v, now);
            && (E.IsEcho(out, ECHO_TIMEOUT, v, now) <==> out != [] && out[0].value == v)
            && (if out != [] && out[0].value == v
                then after == n.node.(outstanding := out[1..])
                else after.outstanding == out && after.estop == v)
  {
    var out := n.node.outstanding;
    if out != [] {
      assert out[0] in Own(n.channel);
      assert E.Unexpired(out, ECHO_TIMEOUT, now) == out;
    }
  }

  lemma DeliveryKeepsSuffix(n: Net, now: real)
    requires n.channel != [] && InTime(n.channel, now) && Suffix(n.node.outstanding, Own(n.channel))
    ensures Suffix(AfterEStopMessage(n.node, n.channel[0].value, now).outstanding, Own(n.channel[1..]))
  {
    DeliveryEffect(n, now);
    hide AfterEStopMessage;
    hide E.IsEcho;
  }

  lemma LocalKeepsSuffix(n: Net, op: Op)
    requires !op.OnEStop? && Suffix(n.node.outstanding, Own(n.channel))
    ensures var t := NetStep(n, Local(op)); Suffix(t.node.outstanding, Own(t.channel))
  {
    hide Apply;
    hide OwnPackets;
    LocalEffect(n.node, op);
    OwnConcat(n.channel, OwnPackets(Apply(n.node, op).sent, TimeOf(op)));
  }

  lemma StepKeepsSuffix(n: Net, op: NetOp)
    requires op.Local? ==> !op.op.OnEStop?
    requires op.Deliver? ==> n.channel != [] && InTime(n.channel, op.now)
    requires Suffix(n.node.outstanding, Own(n.channel))
    ensures var t := NetStep(n, op); Suffix(t.node.outstanding, Own(t.channel))
  {
    hide Apply;
    hide AfterEStopMessage;
    match op
    case Local(o) => LocalKeepsSuffix(n, o);
    case Foreign(value, at) => OwnConcat(n.channel, [Packet(false, value, at)]);
    case Deliver(now) => DeliveryKeepsSuffix(n, now);
  }

  /** The expected echoes are always the newest of the node's own messages in flight. */
  lemma {:induction false} OutstandingIsSuffix(r: Run, k: nat)
    requires IsRun(r) && k <= |r.ops|
    ensures Suffix(r.nets[k].node.outstanding, Own(r.nets[k].channel))
  {
    if k == 0 {
      var cfg, e, now :|
        r.nets[0] == Net(Initial(cfg, e, now).bridge, OwnPackets(Initial(cfg, e, now).sent, now));
      PacketsOf(Initial(cfg, e, now).sent, now);
    } else {
      OutstandingIsSuffix(r, k - 1);
      assert StepAt(r, k - 1);
      StepKeepsSuffix(r.nets[k - 1], r.ops[k - 1]);
    }
  }

  /** A message is an own echo for a second: later, it counts as another publisher's, and the
      expectation is dropped. */
  lemma {:induction false} EchoesExpire(b: Bridge, engaged: bool, now: real)
    requires forall s :: s in b.outstanding ==> now - s.at > 1.0
    ensures var c := AfterEStopMessage(b, engaged, now);
            c.estop == engaged && c.outstanding == [] && c.estopKnown
  {
    AllExpired(b.outstanding, now);
  }

  lemma {:induction false} AllExpired(outstanding: seq<E.Sent>, now: real)
    requires forall s :: s in outstanding ==> now - s.at > 1.0
    ensures E.Unexpired(outstanding, ECHO_TIMEOUT, now) == []
  {
    if outstanding != [] {
      AllExpired(outstanding[1..], now);
    }
  }

  lemma EchoesCountForASecond(b: Bridge, engaged: bool, at: real, now: real)
    requires b.outstanding == [E.Sent(engaged, at)] && now - at <= 1.0
    ensures AfterEStopMessage(b, engaged, now) == b.(outstanding := [])
  {
    assert [E.Sent(engaged, at)][1..] == [];
  }

  // Conservation ----------------------------------------------------------------------

  /** How often v is among the messages of a channel, or the echoes expected. */
  function InChannel(channel: seq<Packet>, v: bool): nat {
    if channel == [] then 0
    else (if channel[0].value == v then 1 else 0) + InChannel(channel[1..], v)
  }

  function InSent(outstanding: seq<E.Sent>, v: bool): nat {
    if outstanding == [] then 0
    else (if outstanding[0].value == v then 1 else 0) + InSent(outstanding[1..], v)
  }

  lemma {:induction false} InChannelConcat(a: seq<Packet>, b: seq<Packet>, v: bool)
    ensures InChannel(a + b, v) == InChannel(a, v) + InChannel(b, v)
  {
    if a == [] {
      assert a + b == b;
    } else {
      assert (a + b)[1..] == a[1..] + b;
      InChannelConcat(a[1..], b, v);
    }
  }

  lemma {:induction false} InSentConcat(a: seq<E.Sent>, b: seq<E.Sent>, v: bool)
    ensures InSent(a + b, v) == InSent(a, v) + InSent(b, v)
  {
    if a == [] {
      assert a + b == b;
    } else {
      assert (a + b)[1..] == a[1..] + b;
      InSentConcat(a[1..], b, v);
    }
  }

  /** The values of the messages delivered in the first k steps and taken as foreign. */
  ghost function ActedOn(r: Run, k: nat): multiset<bool>
    requires IsRun(r) && k <= |r.ops|
  {
    if k == 0 then multiset{}
    else
      assert StepAt(r, k - 1);
      ActedOn(r, k - 1) + if Acts(r.nets[k - 1], r.ops[k - 1])
                          then multiset{r.nets[k - 1].channel[0].value} else multiset{}
  }

  predicate Acts(n: Net, op: NetOp)
    requires op.Deliver? ==> n.channel != []
  {
    op.Deliver? && !E.IsEcho(n.node.outstanding, ECHO_TIMEOUT, n.channel[0].value, op.now)
  }

  /** The values that other publishers really sent in the first k steps. */
  ghost function ForeignSent(r: Run, k: nat): multiset<bool>
    requires IsRun(r) && k <= |r.ops|
  {
    if k == 0 then multiset{}
    else ForeignSent(r, k - 1)
         + if r.ops[k - 1].Foreign? then multiset{r.ops[k - 1].value} else multiset{}
  }

  /** One step changes four counts, and their balance not at all. */
  lemma StepConserves(n: Net, op: NetOp, v: bool)
    requires op.Local? ==> !op.op.OnEStop?
    requires op.Deliver? ==> n.channel != [] && InTime(n.channel, op.now)
    requires Suffix(n.node.outstanding, Own(n.channel))
    ensures var t := NetStep(n, op);
            (if Acts(n, op) && n.channel[0].value == v then 1 else 0)
            + InChannel(t.channel, v) + InSent(n.node.outstanding, v)
            == InChannel(n.channel, v) + InSent(t.node.outstanding, v)
               + (if op.Foreign? && op.value == v then 1 else 0)
  {
    match op
    case Local(o) =>
      LocalConserves(n, o, v);
    case Foreign(value, at) =>
      InChannelConcat(n.channel, [Packet(false, value, at)], v);
    case Deliver(now) =>
      DeliveryEffect(n, now);
      hide AfterEStopMessage;
      hide E.IsEcho;
  }

  lemma LocalConserves(n: Net, op: Op, v: bool)
    requires !op.OnEStop?
    ensures var t := NetStep(n, Local(op));
            InChannel(t.channel, v) + InSent(n.node.outstanding, v)
            == InChannel(n.channel, v) + InSent(t.node.outstanding, v)
  {
    LocalEffect(n.node, op);
    var r := Apply(n.node, op);
    hide Apply;
    InChannelConcat(n.channel, OwnPackets(r.sent, TimeOf(op)), v);
    hide OwnPackets;
    InSentConcat(n.node.outstanding, [E.Sent(r.bridge.estop, TimeOf(op))], v);
  }

  lemma {:induction false} ValuesAreConserved(r: Run, k: nat, v: bool)
    requires IsRun(r) && k <= |r.ops|
    ensures ActedOn(r, k)[v] + InChannel(r.nets[k].channel, v)
            == ForeignSent(r, k)[v] + InSent(r.nets[k].node.outstanding, v)
  {
    if k == 0 {
      var cfg, e, now :|
        r.nets[0] == Net(Initial(cfg, e, now).bridge, OwnPackets(Initial(cfg, e, now).sent, now));
      PacketsOf(Initial(cfg, e, now).sent, now);
    } else {
      ValuesAreConserved(r, k - 1, v);
      OutstandingIsSuffix(r, k - 1);
      assert StepAt(r, k - 1);
      hide NetStep;
      hide InChannel;
      hide InSent;
      hide Own;
      hide InTime;
      hide Suffix;
      StepConserves(r.nets[k - 1], r.ops[k - 1], v);
    }
  }

  /** Whenever the channel is empty, the messages acted on as foreign are, counted by value,
      exactly those that were foreign, even if the two were mistaken for each other. */
  lemma EchoConservation(r: Run, k: nat)
    requires IsRun(r) && k <= |r.ops| && r.nets[k].channel == []
    ensures ActedOn(r, k) == ForeignSent(r, k)
  {
    OutstandingIsSuffix(r, k);
    ValuesAreConserved(r, k, false);
    ValuesAreConserved(r, k, true);
    hide IsRun;
    assert InChannel([], false) == InChannel([], true) == 0;
    SameCounts(ActedOn(r, k), ForeignSent(r, k));
  }

  lemma SameCounts(a: multiset<bool>, b: multiset<bool>)
    requires a[false] == b[false] && a[true] == b[true]
    ensures a == b
  {
    assert forall v: bool :: a[v] == b[v];
  }

  // Without other publishers ------------------------------------------------------------

  ghost predicate NoForeign(r: Run, k: nat)
    requires k <= |r.ops|
  {
    forall i :: 0 <= i < k ==> !r.ops[i].Foreign?
  }

  lemma {:induction false} AloneEveryEchoIsExpected(r: Run, k: nat)
    requires IsRun(r) && k <= |r.ops| && NoForeign(r, k)
    ensures r.nets[k].node.outstanding == Own(r.nets[k].channel)
    ensures forall p :: p in r.nets[k].channel ==> p.own
  {
    if k == 0 {
      var cfg, e, now :|
        r.nets[0] == Net(Initial(cfg, e, now).bridge, OwnPackets(Initial(cfg, e, now).sent, now));
      PacketsOf(Initial(cfg, e, now).sent, now);
    } else {
      AloneEveryEchoIsExpected(r, k - 1);
      assert StepAt(r, k - 1);
      var n := r.nets[k - 1];
      match r.ops[k - 1]
      case Local(op) =>
        LocalEffect(n.node, op);
        var packets := OwnPackets(Apply(n.node, op).sent, TimeOf(op));
        hide Apply;
        OwnConcat(n.channel, packets);
      case Deliver(now) =>
        DeliveryEffect(n, now);
        hide AfterEStopMessage;
        assert n.channel[0] in n.channel;
    }
  }

  /** Without other publishers, hearing its own messages never changes the node. */
  lemma OwnMessagesAreInert(r: Run, k: nat)
    requires IsRun(r) && k < |r.ops| && NoForeign(r, k) && r.ops[k].Deliver?
    ensures r.nets[k].node.outstanding != []
    ensures r.nets[k + 1].node
            == r.nets[k].node.(outstanding := r.nets[k].node.outstanding[1..])
  {
    AloneEveryEchoIsExpected(r, k);
    assert StepAt(r, k);
    assert r.nets[k].channel[0] in r.nets[k].channel;
    DeliveryEffect(r.nets[k], r.ops[k].now);
    hide AfterEStopMessage;
  }

  // Agreement with the topic --------------------------------------------------------------

  /** Nobody publishes on the topic in steps a, ..., b - 1. */
  ghost predicate Quiet(r: Run, a: int, b: int)
    requires IsRun(r) && 0 <= a <= b <= |r.ops|
  {
    forall i :: a <= i < b ==> |r.nets[i + 1].channel| <= |r.nets[i].channel|
  }

  /** A quiet step delivers the first message or leaves channel, echoes and state alone. */
  lemma QuietStep(r: Run, i: nat)
    requires IsRun(r) && i < |r.ops| && |r.nets[i + 1].channel| <= |r.nets[i].channel|
    ensures !r.ops[i].Foreign?
    ensures var n, t := r.nets[i], r.nets[i + 1];
            if r.ops[i].Local?
            then t.channel == n.channel && t.node.outstanding == n.node.outstanding
                 && t.node.estop == n.node.estop
            else n.channel != [] && t.channel == n.channel[1..]
                 && var out, v := n.node.outstanding, n.channel[0].value;
                    if out != [] && out[0].value == v
                    then t.node.outstanding == out[1..] && t.node.estop == n.node.estop
                    else t.node.outstanding == out && t.node.estop == v
  {
    assert StepAt(r, i);
    OutstandingIsSuffix(r, i);
    if r.ops[i].Local? {
      LocalEffect(r.nets[i].node, r.ops[i].op);
      hide Apply;
      hide OwnPackets;
    } else if r.ops[i].Deliver? {
      DeliveryEffect(r.nets[i], r.ops[i].now);
      hide AfterEStopMessage;
    }
  }

  /** The last packet of a channel that is only being emptied stays last. */
  lemma {:induction false} LastStaysLast(r: Run, a: nat, b: nat)
    requires IsRun(r) && a <= b <= |r.ops| && Quiet(r, a, b) && r.nets[a].channel != []
    ensures |r.nets[b].channel| <= |r.nets[a].channel|
    ensures r.nets[b].channel == r.nets[a].channel[|r.nets[a].channel| - |r.nets[b].channel|..]
    decreases b
  {
    if a < b {
      LastStaysLast(r, a, b - 1);
      QuietStep(r, b - 1);
    }
  }

  /** If the last message on the topic came from another publisher, the node's state equals
      it once everything has been delivered. */
  lemma {:induction false} LastForeignMessageWins(r: Run, p: nat, k: nat)
    requires IsRun(r) && p < k <= |r.ops| && r.ops[p].Foreign?
    requires Quiet(r, p + 1, k) && r.nets[k].channel == []
    ensures r.nets[k].node.estop == r.ops[p].value
    decreases k
  {
    ForeignPublication(r, p);
    hide NetStep;
    hide Own;
    if k - 1 > p {
      QuietStep(r, k - 1);
      if r.nets[k - 1].channel == [] {
        LastForeignMessageWins(r, p, k - 1);
      } else {
        LastStaysLast(r, p + 1, k - 1);
        OutstandingIsSuffix(r, k - 1);
        LastPacketLeft(r.nets[p].channel, Packet(false, r.ops[p].value, r.ops[p].at), r.nets[k - 1].channel);
        hide IsRun;
      }
    }
  }

  lemma ForeignPublication(r: Run, p: nat)
    requires IsRun(r) && p < |r.ops| && r.ops[p].Foreign?
    ensures r.nets[p + 1].channel == r.nets[p].channel + [Packet(false, r.ops[p].value, r.ops[p].at)]
  {
    assert StepAt(r, p);
  }

  lemma LastPacketLeft(before: seq<Packet>, p: Packet, c: seq<Packet>)
    requires 1 <= |c| <= |before| + 1 && c == (before + [p])[|before| + 1 - |c|..]
    requires !p.own
    ensures c[|c| - 1] == p
    ensures c[1..] == [] ==> c == [p] && Own(c) == []
  {
    if c[1..] == [] {
      assert c == [c[0]];
    }
  }

  /** The state a node ends with when it has state e, expects `out` and hears all of c. */
  function Settled(e: bool, out: seq<E.Sent>, c: seq<Packet>): bool
    decreases |c|
  {
    if c == [] then e
    else if out != [] && out[0].value == c[0].value then Settled(e, out[1..], c[1..])
    else Settled(c[0].value, out, c[1..])
  }

  lemma {:induction false} SettlesAlike(r: Run, a: nat, b: nat)
    requires IsRun(r) && a <= b <= |r.ops| && Quiet(r, a, b)
    ensures var n, t := r.nets[a], r.nets[b];
            Settled(t.node.estop, t.node.outstanding, t.channel)
            == Settled(n.node.estop, n.node.outstanding, n.channel)
    decreases b
  {
    if a < b {
      SettlesAlike(r, a, b - 1);
      QuietStep(r, b - 1);
    }
  }

  // The filter takes the first message with the value of the oldest echo for that echo, so it
  // finds the expected echoes in the channel one after the other, each as early as possible.

  /** The messages behind the one that is taken for the last expected echo. */
  function Behind(out: seq<E.Sent>, c: seq<Packet>): seq<Packet>
    decreases |c|
  {
    if out == [] || c == [] then c
    else Behind(if out[0].value == c[0].value then out[1..] else out, c[1..])
  }

  /** The messages in front of it that are not taken for an echo. */
  function Passed(out: seq<E.Sent>, c: seq<Packet>): seq<Packet>
    decreases |c|
  {
    if out == [] || c == [] then []
    else if out[0].value == c[0].value then Passed(out[1..], c[1..])
    else [c[0]] + Passed(out, c[1..])
  }

  predicate Says(channel: seq<Packet>, v: bool) {
    exists i :: 0 <= i < |channel| && channel[i].value == v
  }

  /** With `out` expected and c in flight, may a node publish v and stay with it? Either a message
      of that value comes when all earlier echoes are accounted for, and is taken for the new
      echo; or none comes at all then, and the last message acted on before says v. */
  predicate Agrees(out: seq<E.Sent>, c: seq<Packet>, v: bool) {
    var behind, passed := Behind(out, c), Passed(out, c);
    Says(behind, v) || (behind == [] && (passed == [] || passed[|passed| - 1].value == v))
  }

  predicate AllFound(out: seq<E.Sent>, c: seq<Packet>)
    decreases |c|
  {
    out == [] || (c != [] && AllFound(if out[0].value == c[0].value then out[1..] else out, c[1..]))
  }

  /** Own messages in flight are found, even if others are taken for them. */
  lemma OwnAreFound(out: seq<E.Sent>, c: seq<Packet>)
    requires Suffix(out, Own(c))
    ensures AllFound(out, c)
  {
    var own := Own(c);
    assert own == own[..|own| - |out|] + out;
    FoundBehind(own[..|own| - |out|], out, c);
  }

  lemma {:induction false} FoundBehind(before: seq<E.Sent>, out: seq<E.Sent>, c: seq<Packet>)
    requires Own(c) == before + out
    ensures AllFound(out, c)
    decreases |c|
  {
    if out != [] {
      var rest := if c[0].own && before != [] then before[1..] else before;
      if c[0].own && before == [] {
        assert out[0] == (before + out)[0] == Own(c)[0];
        assert Own(c[1..]) == Own(c)[1..] == [] + out[1..];
        FoundBehind([], out[1..], c[1..]);
      } else {
        assert Own(c[1..]) == rest + out by {
          assert c[0].own ==> Own(c)[1..] == Own(c[1..]);
        }
        if out[0].value == c[0].value {
          assert rest + out == (rest + [out[0]]) + out[1..];
          FoundBehind(rest + [out[0]], out[1..], c[1..]);
        } else {
          FoundBehind(rest, out, c[1..]);
        }
      }
    }
  }

  lemma {:induction false} SettledBehind(e: bool, c: seq<Packet>, v: bool, at: real)
    ensures var own := c + [Packet(true, v, at)];
            && Settled(e, [], own) == v
            && (Settled(e, [E.Sent(v, at)], own) == v <==> Says(c, v) || (c == [] && e == v))
    decreases |c|
  {
    var own, sent := c + [Packet(true, v, at)], [E.Sent(v, at)];
    assert sent[1..] == [];
    if c != [] {
      assert own[1..] == c[1..] + [Packet(true, v, at)];
      SettledBehind(c[0].value, c[1..], v, at);
      SettledBehind(e, c[1..], v, at);
      SaysSplits(c, v);
    } else {
      assert own[1..] == [];
    }
  }

  lemma SaysSplits(c: seq<Packet>, v: bool)
    requires c != []
    ensures Says(c, v) <==> c[0].value == v || Says(c[1..], v)
  {
    if Says(c[1..], v) {
      var i :| 0 <= i < |c[1..]| && c[1..][i].value == v;
      assert c[i + 1].value == v;
    }
    if Says(c, v) && c[0].value != v {
      var i :| 0 <= i < |c| && c[i].value == v;
      assert c[1..][i - 1].value == v;
    }
  }

  lemma {:induction false} SettledExactly(e: bool, out: seq<E.Sent>, c: seq<Packet>, v: bool, at: real)
    requires AllFound(out, c)
    ensures var passed := Passed(out, c);
            Settled(e, out + [E.Sent(v, at)], c + [Packet(true, v, at)]) == v
            <==> Says(Behind(out, c), v)
                 || (Behind(out, c) == [] && (if passed == [] then e else passed[|passed| - 1].value) == v)
    decreases |c|
  {
    var mine, own := out + [E.Sent(v, at)], c + [Packet(true, v, at)];
    if out == [] {
      assert mine == [E.Sent(v, at)];
      SettledBehind(e, c, v, at);
    } else {
      assert own[1..] == c[1..] + [Packet(true, v, at)];
      assert mine[1..] == out[1..] + [E.Sent(v, at)];
      if out[0].value == c[0].value {
        SettledExactly(e, out[1..], c[1..], v, at);
      } else {
        SettledExactly(c[0].value, out, c[1..], v, at);
      }
    }
  }

  /** If the last message on the topic is the node's own, the node agrees with the topic in the
      end exactly when Agrees said so before the publication, of the echoes it expected and the
      messages in flight. Otherwise the node shows the opposite of the topic. */
  lemma LastOwnMessageWins(r: Run, p: nat, k: nat)
    requires IsRun(r) && p < k <= |r.ops|
    requires |r.nets[p + 1].channel| > |r.nets[p].channel| && !r.ops[p].Foreign?
    requires Quiet(r, p + 1, k) && r.nets[k].channel == []
    ensures var n, v := r.nets[p], r.nets[p + 1].node.estop;
            && r.nets[p + 1].channel[|n.channel|].value == v
            && (r.nets[k].node.estop == v <==> Agrees(n.node.outstanding, n.channel, v))
  {
    var n, v := r.nets[p], r.nets[p + 1].node.estop;
    var at := OwnPublication(r, p);
    OutstandingIsSuffix(r, p);
    OwnAreFound(n.node.outstanding, n.channel);
    SettlesAlike(r, p + 1, k);
    hide IsRun;
    hide Own;
    hide NetStep;
    SettledExactly(v, n.node.outstanding, n.channel, v, at);
  }

  /** A step that lengthens the channel, other than by a foreign message, has published the new
      state behind everything in flight, and expects the echo after all others. */
  lemma OwnPublication(r: Run, p: nat) returns (at: real)
    requires IsRun(r) && p < |r.ops|
    requires |r.nets[p + 1].channel| > |r.nets[p].channel| && !r.ops[p].Foreign?
    ensures var n, t := r.nets[p], r.nets[p + 1];
            && t.channel == n.channel + [Packet(true, t.node.estop, at)]
            && t.node.outstanding == n.node.outstanding + [E.Sent(t.node.estop, at)]
  {
    assert StepAt(r, p);
    hide IsRun;
    hide Apply;
    hide AfterEStopMessage;
    hide OwnPackets;
    var op := r.ops[p].op;
    LocalEffect(r.nets[p].node, op);
    at := TimeOf(op);
  }

  /** The run that shows it: another publisher releases, and before that message arrives the
      node engages; after both deliveries the node shows the release. */
  function Disagreement(cfg: Config): Run {
    var ops := [Foreign(false, 0.0), Local(SetEStop(true, 0.0)), Deliver(0.0), Deliver(0.0)];
    var n0 := Net(Initial(cfg, false, 0.0).bridge, []);
    var n1 := NetStep(n0, ops[0]);
    var n2 := NetStep(n1, ops[1]);
    var n3 := Net(AfterEStopMessage(n2.node, false, 0.0), [Packet(true, true, 0.0)]);
    var n4 := Net(AfterEStopMessage(n3.node, true, 0.0), []);
    Run([n0, n1, n2, n3, n4], ops)
  }

  lemma DisagreementChannels(cfg: Config)
    ensures var n2 := Disagreement(cfg).nets[2];
            && n2.channel == [Packet(false, false, 0.0), Packet(true, true, 0.0)]
            && n2.node.estop && n2.node.outstanding == [E.Sent(true, 0.0)]
            && InTime(n2.channel, 0.0) && InTime([Packet(true, true, 0.0)], 0.0)
  {
    var n1 := Disagreement(cfg).nets[1];
    LocalEffect(n1.node, SetEStop(true, 0.0));
    var own := Packet(true, true, 0.0);
    PacketsOf([Twist(0.0, 0.0), EStop(true)], 0.0);
    var two := [Packet(false, false, 0.0), own];
    assert two[1..] == [own] && [own][1..] == [];
    assert Own([own]) == [E.Sent(true, 0.0)] && Own(two) == Own(two[1..]);
  }

  lemma MirrorCanDisagree(cfg: Config)
    ensures var r := Disagreement(cfg);
            && IsRun(r) && r.nets[4].channel == []
            && r.nets[2].channel == r.nets[1].channel + [Packet(true, true, 0.0)]
            && !r.nets[4].node.estop
  {
    DisagreementChannels(cfg);
    var r := Disagreement(cfg);
    hide Apply;
    var own := Packet(true, true, 0.0);
    assert r.nets[2].channel[1..] == [own] && [own][1..] == [] && r.nets[1].channel[1..] == [];
    assert OwnPackets([], 0.0) == [];
    assert Started(r.nets[0]) by {
      assert r.nets[0] == Net(Initial(cfg, false, 0.0).bridge, OwnPackets(Initial(cfg, false, 0.0).sent, 0.0));
    }
    forall i | 0 <= i < 4 ensures StepAt(r, i) {
    }
    LastOwnMessageWins(r, 1, 4);
    assert r.nets[1].channel[0].value == false;
  }

  /** The same with the node's own repetitions: it engages, another publisher releases, and the
      node repeats its stop before either message arrives. */
  function RepeatedStop(cfg: Config): Run {
    var ops := [Local(SetEStop(true, 0.0)), Foreign(false, 0.0), Local(EStopTimer(0.0)),
                Deliver(0.0), Deliver(0.0), Deliver(0.0)];
    var n0 := Net(Initial(cfg, false, 0.0).bridge, []);
    var n1 := NetStep(n0, ops[0]);
    var n2 := NetStep(n1, ops[1]);
    var n3 := NetStep(n2, ops[2]);
    var own, foreign := Packet(true, true, 0.0), Packet(false, false, 0.0);
    var n4 := Net(AfterEStopMessage(n3.node, true, 0.0), [foreign, own]);
    var n5 := Net(AfterEStopMessage(n4.node, false, 0.0), [own]);
    var n6 := Net(AfterEStopMessage(n5.node, true, 0.0), []);
    Run([n0, n1, n2, n3, n4, n5, n6], ops)
  }

  lemma EngagingPublishes(n: Net)
    ensures var t := NetStep(n, Local(SetEStop(true, 0.0)));
            && t.channel == n.channel + [Packet(true, true, 0.0)] && t.node.estop
            && t.node.outstanding == n.node.outstanding + [E.Sent(true, 0.0)]
  {
    LocalEffect(n.node, SetEStop(true, 0.0));
    PacketsOf([Twist(0.0, 0.0), EStop(true)], 0.0);
    hide OwnPackets;
  }

  lemma RepeatingPublishes(n: Net)
    requires n.node.estop
    ensures var t := NetStep(n, Local(EStopTimer(0.0)));
            && t.channel == n.channel + [Packet(true, true, 0.0)] && t.node.estop
            && t.node.outstanding == n.node.outstanding + [E.Sent(true, 0.0)]
  {
    LocalEffect(n.node, EStopTimer(0.0));
    PacketsOf([EStop(true)], 0.0);
    hide OwnPackets;
  }

  lemma RepeatedStopChannels(cfg: Config)
    ensures var n2, n3 := RepeatedStop(cfg).nets[2], RepeatedStop(cfg).nets[3];
            var own, foreign := Packet(true, true, 0.0), Packet(false, false, 0.0);
            && n2.channel == [own, foreign] && n2.node.outstanding == [E.Sent(true, 0.0)]
            && n3.channel == [own, foreign, own] && n3.node.estop
            && n3.node.outstanding == [E.Sent(true, 0.0), E.Sent(true, 0.0)]
  {
    hide Apply;
    hide AfterEStopMessage;
    EngagingPublishes(RepeatedStop(cfg).nets[0]);
    RepeatingPublishes(RepeatedStop(cfg).nets[2]);
  }

  lemma RepeatedStopInTime()
    ensures var own, foreign := Packet(true, true, 0.0), Packet(false, false, 0.0);
            InTime([own, foreign, own], 0.0) && InTime([foreign, own], 0.0) && InTime([own], 0.0)
  {
    var own, foreign := Packet(true, true, 0.0), Packet(false, false, 0.0);
    var two, three := [foreign, own], [own, foreign, own];
    assert two[1..] == [own] && [own][1..] == [] && three[1..] == two;
    assert Own([own]) == [E.Sent(true, 0.0)] && Own(two) == Own([own]);
    assert Own(three) == [E.Sent(true, 0.0)] + Own(two);
  }

  lemma RepeatedStopIsRun(cfg: Config)
    ensures IsRun(RepeatedStop(cfg))
  {
    RepeatedStopChannels(cfg);
    RepeatedStopInTime();
    var r := RepeatedStop(cfg);
    hide Apply;
    hide AfterEStopMessage;
    hide Own;
    var own, foreign := Packet(true, true, 0.0), Packet(false, false, 0.0);
    assert [own, foreign, own][1..] == [foreign, own] && [foreign, own][1..] == [own] && [own][1..] == [];
    assert OwnPackets([], 0.0) == [];
    assert Started(r.nets[0]) by {
      assert r.nets[0] == Net(Initial(cfg, false, 0.0).bridge, OwnPackets(Initial(cfg, false, 0.0).sent, 0.0));
    }
    forall i | 0 <= i < 6 ensures StepAt(r, i) {
    }
  }

  /** The stop was engaged last, and yet the node ends up released. */
  lemma RepeatedStopCanDisagree(cfg: Config)
    ensures var r := RepeatedStop(cfg);
            && IsRun(r) && r.nets[6].channel == []
            && r.nets[3].channel == r.nets[2].channel + [Packet(true, true, 0.0)]
            && Says(r.nets[2].channel, true) && !r.nets[6].node.estop
  {
    RepeatedStopIsRun(cfg);
    RepeatedStopChannels(cfg);
    var r := RepeatedStop(cfg);
    hide Apply;
    hide AfterEStopMessage;
    hide IsRun;
    LastOwnMessageWins(r, 2, 6);
    var own, foreign := Packet(true, true, 0.0), Packet(false, false, 0.0);
    assert r.nets[2].channel[0].value;
    assert [own, foreign][1..] == [foreign] && [E.Sent(true, 0.0)][1..] == [];
    assert Behind([E.Sent(true, 0.0)], [own, foreign]) == Behind([], [foreign]) == [foreign];
    assert !Says([foreign], true);
  }
}
