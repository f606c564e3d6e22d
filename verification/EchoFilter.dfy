/** Telling a node's own messages apart from other publishers' on a shared topic. */
module EchoFilter {
  /** A value the node published, and when. */
  datatype Sent = Sent(value: bool, at: real)

  /** The outstanding echoes after the expired ones are forgotten. */
  function Unexpired(outstanding: seq<Sent>, timeout: real, now: real): seq<Sent> {
    if outstanding != [] && now - outstanding[0].at > timeout
    then Unexpired(outstanding[1..], timeout, now)
    else outstanding
  }

  predicate IsEcho(outstanding: seq<Sent>, timeout: real, value: bool, now: real) {
    var left := Unexpired(outstanding, timeout, now);
    left != [] && left[0].value == value
  }

  function AfterReceipt(outstanding: seq<Sent>, timeout: real, value: bool, now: real): seq<Sent> {
    var left := Unexpired(outstanding, timeout, now);
    if left != [] && left[0].value == value then left[1..] else left
  }

  class EchoFilterObject {
    const timeout: real
    var outstanding: seq<Sent>

    constructor (timeout: real)
      ensures this.timeout == timeout && outstanding == []
    {
      this.timeout, outstanding := timeout, [];
    }

    method Record(value: bool, now: real)
      modifies this
      ensures outstanding == old(outstanding) + [Sent(value, now)]
    {
      outstanding := outstanding + [Sent(value, now)];
    }

    method CheckEcho(value: bool, now: real) returns (echo: bool)
      modifies this
      ensures outstanding == AfterReceipt(old(outstanding), timeout, value, now)
      ensures echo == IsEcho(old(outstanding), timeout, value, now)
    {
      while outstanding != [] && now - outstanding[0].at > timeout
        invariant Unexpired(outstanding, timeout, now) == Unexpired(old(outstanding), timeout, now)
        decreases |outstanding|
      {
        outstanding := outstanding[1..];
      }
      if outstanding != [] && outstanding[0].value == value {
        outstanding := outstanding[1..];
        return true;
      }
      echo := false;
    }
  }

  /** Forgetting drops a first part of the queue and stops at an entry still in time. */
  lemma {:induction false} UnexpiredIsSuffix(outstanding: seq<Sent>, timeout: real, now: real)
    ensures var left := Unexpired(outstanding, timeout, now);
            && |left| <= |outstanding|
            && left == outstanding[|outstanding| - |left|..]
            && (forall i :: 0 <= i < |outstanding| - |left| ==> now - outstanding[i].at > timeout)
            && (left != [] ==> now - left[0].at <= timeout)
  {
    if outstanding != [] && now - outstanding[0].at > timeout {
      UnexpiredIsSuffix(outstanding[1..], timeout, now);
    }
  }
}
