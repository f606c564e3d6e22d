/** The driver lock of the web controller: one client drives at a time.

    Times are seconds of a monotonic clock. A last command of minus infinity is None.
 */
module DriverLock {
  import opened Numbers

  type Client = string

  datatype Lock = Lock(timeout: real, driver: Option<Client>, lastCommand: Option<real>)
  {
    predicate Expired(now: real) {
      lastCommand.None? || now - lastCommand.value >= timeout
    }

    /** The lock after holder(now), which forgets an expired driver. */
    function Asked(now: real): Lock {
      if driver.Some? && Expired(now) then this.(driver := None) else this
    }

    function Holder(now: real): Option<Client> {
      Asked(now).driver
    }

    predicate Grants(client: Client, now: real) {
      Holder(now).None? || Holder(now).value == client
    }

    function Requested(client: Client, now: real): Lock {
      if Grants(client, now) then this.(driver := Some(client), lastCommand := Some(now))
      else Asked(now)
    }

    function Released(client: Client): Lock {
      if driver == Some(client) then this.(driver := None, lastCommand := None) else this
    }
  }

  function NewLock(timeout: real): Lock {
    Lock(timeout, None, None)
  }

  class DriverLockObject {
    const timeout: real
    var driver: Option<Client>
    var lastCommand: Option<real>

    function Value(): Lock
      reads this
    {
      Lock(timeout, driver, lastCommand)
    }

    constructor (timeout: real)
      ensures Value() == NewLock(timeout)
    {
      this.timeout, driver, lastCommand := timeout, None, None;
    }

    method Holder(now: real) returns (holder: Option<Client>)
      modifies this
      ensures Value() == old(Value()).Asked(now)
      ensures holder == old(Value()).Holder(now)
    {
      if driver.Some? && (lastCommand.None? || now - lastCommand.value >= timeout) {
        driver := None;
      }
      holder := driver;
    }

    method Request(client: Client, now: real) returns (granted: bool)
      modifies this
      ensures Value() == old(Value()).Requested(client, now)
      ensures granted == old(Value()).Grants(client, now)
    {
      var holder := Holder(now);
      if holder.Some? && holder.value != client {
        return false;
      }
      driver := Some(client);
      lastCommand := Some(now);
      granted := true;
    }

    method Release(client: Client) returns (released: bool)
      modifies this
      ensures Value() == old(Value()).Released(client)
      ensures released == (old(driver) == Some(client))
    {
      if driver != Some(client) {
        return false;
      }
      driver := None;
      lastCommand := None;
      released := true;
    }
  }

  // Histories -----------------------------------------------------------------------

  datatype Call =
    | Ask(now: real)
    | Request(client: Client, now: real)
    | Release(client: Client)

  function After(lock: Lock, c: Call): Lock {
    match c
    case Ask(now) => lock.Asked(now)
    case Request(client, now) => lock.Requested(client, now)
    case Release(client) => lock.Released(client)
  }

  function AfterAll(timeout: real, calls: seq<Call>): Lock {
    if calls == [] then NewLock(timeout)
    else After(AfterAll(timeout, calls[..|calls| - 1]), calls[|calls| - 1])
  }

  ghost predicate NotAfter(calls: seq<Call>, now: real) {
    forall c :: c in calls ==> c.Release? || c.now <= now
  }

  ghost predicate Monotone(calls: seq<Call>) {
    forall i, k :: 0 <= i < k < |calls| && !calls[i].Release? && !calls[k].Release? ==>
      calls[i].now <= calls[k].now
  }

  /** What the lock is for: the client of the last accepted request, unless it released the
      lock, with the time of that request. Asking plays no part. */
  function LastAccepted(timeout: real, calls: seq<Call>): Option<(Client, real)> {
    if calls == [] then None
    else LastAfter(timeout, LastAccepted(timeout, calls[..|calls| - 1]), calls[|calls| - 1])
  }

  function LastAfter(timeout: real, before: Option<(Client, real)>, c: Call): Option<(Client, real)> {
    match c
    case Ask(_) => before
    case Request(client, now) =>
      if Driving(before, timeout, now) in {None, Some(client)} then Some((client, now)) else before
    case Release(client) => if before.Some? && before.value.0 == client then None else before
  }

  /** The driver at `now`: the last accepted client, within the timeout. */
  function Driving(last: Option<(Client, real)>, timeout: real, now: real): Option<Client> {
    if last.Some? && now - last.value.1 < timeout then Some(last.value.0) else None
  }

  /** The mutable lock remembers the last accepted request, or has forgotten an expired one. */
  ghost predicate Refines(lock: Lock, timeout: real, last: Option<(Client, real)>, now: real) {
    && lock.timeout == timeout
    && match lock.driver
       case Some(c) => lock.lastCommand.Some? && last == Some((c, lock.lastCommand.value))
       case None => Driving(last, timeout, now) == None
  }

  lemma EarlierCallsAreNotAfter(calls: seq<Call>, i: nat)
    requires Monotone(calls) && i < |calls| && !calls[i].Release?
    ensures NotAfter(calls[..i], calls[i].now)
  {
    forall c | c in calls[..i] ensures c.Release? || c.now <= calls[i].now {
      var k :| 0 <= k < i && calls[..i][k] == c;
      assert calls[k] == c;
    }
  }

  lemma {:induction false} LastIsNotLater(timeout: real, calls: seq<Call>, now: real)
    requires NotAfter(calls, now)
    ensures var last := LastAccepted(timeout, calls); last.Some? ==> last.value.1 <= now
  {
    if calls != [] {
      LastIsNotLater(timeout, calls[..|calls| - 1], now);
    }
  }

  lemma {:induction false} LockRefinesLastAccepted(timeout: real, calls: seq<Call>, now: real)
    requires Monotone(calls) && NotAfter(calls, now)
    ensures Refines(AfterAll(timeout, calls), timeout, LastAccepted(timeout, calls), now)
  {
    if calls != [] {
      var before, c := calls[..|calls| - 1], calls[|calls| - 1];
      if !c.Release? {
        EarlierCallsAreNotAfter(calls, |calls| - 1);
      }
      LockRefinesLastAccepted(timeout, before, if c.Release? then now else c.now);
    }
  }

  /** At monotone times, every answer of the lock is that of the specification, however often
      holder() was called in between. */
  lemma AnswersFollowLastAccepted(timeout: real, calls: seq<Call>, client: Client, now: real)
    requires Monotone(calls) && NotAfter(calls, now)
    ensures AfterAll(timeout, calls).Holder(now) == Driving(LastAccepted(timeout, calls), timeout, now)
    ensures AfterAll(timeout, calls).Grants(client, now) <==>
              Driving(LastAccepted(timeout, calls), timeout, now) in {None, Some(client)}
  {
    LockRefinesLastAccepted(timeout, calls, now);
  }

  function WithoutAsking(calls: seq<Call>): seq<Call> {
    if calls == [] then []
    else
      var rest, c := WithoutAsking(calls[..|calls| - 1]), calls[|calls| - 1];
      if c.Ask? then rest else rest + [c]
  }

  lemma {:induction false} AskingLeavesNoTrace(timeout: real, calls: seq<Call>)
    ensures LastAccepted(timeout, WithoutAsking(calls)) == LastAccepted(timeout, calls)
    ensures forall c :: c in WithoutAsking(calls) ==> c in calls
  {
    if calls != [] {
      var before, c := calls[..|calls| - 1], calls[|calls| - 1];
      AskingLeavesNoTrace(timeout, before);
      if !c.Ask? {
        var w := WithoutAsking(calls);
        assert w[..|w| - 1] == WithoutAsking(before);
      }
    }
  }

  lemma {:induction false} MonotoneWithoutAsking(calls: seq<Call>)
    requires Monotone(calls)
    ensures Monotone(WithoutAsking(calls))
  {
    if calls != [] {
      var before, c := calls[..|calls| - 1], calls[|calls| - 1];
      MonotoneWithoutAsking(before);
      AskingLeavesNoTrace(0.0, before);
      if c.Request? {
        EarlierCallsAreNotAfter(calls, |calls| - 1);
        var w := WithoutAsking(before);
        assert forall i :: 0 <= i < |w| ==> w[i] in before;
      }
    }
  }

  /** Calls of the mutating holder() never change a later answer of holder() or request(). */
  lemma AskingIsHarmless(timeout: real, calls: seq<Call>, client: Client, now: real)
    requires Monotone(calls) && NotAfter(calls, now)
    ensures AfterAll(timeout, WithoutAsking(calls)).Holder(now) == AfterAll(timeout, calls).Holder(now)
    ensures AfterAll(timeout, WithoutAsking(calls)).Grants(client, now)
            == AfterAll(timeout, calls).Grants(client, now)
  {
    AskingLeavesNoTrace(timeout, calls);
    MonotoneWithoutAsking(calls);
    AnswersFollowLastAccepted(timeout, calls, client, now);
    AnswersFollowLastAccepted(timeout, WithoutAsking(calls), client, now);
  }

  /** They can change the answer of release(): it is True for a driver that expired unnoticed,
      and False once somebody asked. The two answers differ exactly then. */
  lemma AskingChangesReleaseAnswer(lock: Lock, client: Client, now: real)
    ensures (lock.driver == Some(client)) != (lock.Asked(now).driver == Some(client))
            <==> lock.driver == Some(client) && lock.Expired(now)
  {
  }

  /** Call i is a request that is granted. */
  ghost predicate Accepted(timeout: real, calls: seq<Call>, i: int) {
    0 <= i < |calls| && calls[i].Request?
    && AfterAll(timeout, calls[..i]).Grants(calls[i].client, calls[i].now)
  }

  ghost predicate NoRelease(calls: seq<Call>, a: int, b: int) {
    forall i :: 0 <= a < i < b <= |calls| ==> !calls[i].Release?
  }

  /** Without a release, an accepted request leaves a trace: whoever drives later took over at
      least a timeout after it, or is the same client. */
  lemma {:induction false} AcceptedRequestLasts(timeout: real, calls: seq<Call>, i: nat, k: nat)
    requires Monotone(calls) && Accepted(timeout, calls, i) && i < k <= |calls| && NoRelease(calls, i, k)
    requires timeout >= 0.0
    ensures var last := LastAccepted(timeout, calls[..k]);
            && last.Some? && last.value.1 >= calls[i].now
            && (last.value.0 == calls[i].client || last.value.1 - calls[i].now >= timeout)
    decreases k
  {
    var before, c := calls[..k - 1], calls[k - 1];
    assert calls[..k][..k - 1] == before;
    assert LastAccepted(timeout, calls[..k]) == LastAfter(timeout, LastAccepted(timeout, before), c);
    hide LastAccepted;
    hide LastAfter;
    assert NoRelease(calls, i, k - 1) && !c.Release?;
    EarlierCallsAreNotAfter(calls, k - 1);
    LastIsNotLater(timeout, before, c.now);
    if k - 1 == i {
      AnswersFollowLastAccepted(timeout, before, c.client, c.now);
      RequestTakes(timeout, LastAccepted(timeout, before), c);
    } else {
      hide Monotone;
      AcceptedRequestLasts(timeout, calls, i, k - 1);
      TraceStays(timeout, LastAccepted(timeout, before), c, calls[i].client, calls[i].now);
    }
  }

  lemma RequestTakes(timeout: real, last: Option<(Client, real)>, c: Call)
    requires c.Request? && Driving(last, timeout, c.now) in {None, Some(c.client)}
    ensures LastAfter(timeout, last, c) == Some((c.client, c.now))
  {
  }

  lemma TraceStays(timeout: real, last: Option<(Client, real)>, c: Call, client: Client, at: real)
    requires !c.Release? && last.Some? && at <= last.value.1 <= c.now
    requires last.value.0 == client || last.value.1 - at >= timeout
    ensures var next := LastAfter(timeout, last, c);
            && next.Some? && next.value.1 >= at
            && (next.value.0 == client || next.value.1 - at >= timeout)
  {
  }

  /** Mutual exclusion: two accepted requests of different clients, with no release between
      them, are at least the timeout apart. */
  lemma DifferentDriversAreApart(timeout: real, calls: seq<Call>, i: nat, k: nat)
    requires Monotone(calls) && timeout >= 0.0
    requires i < k && Accepted(timeout, calls, i) && Accepted(timeout, calls, k)
    requires calls[i].client != calls[k].client && NoRelease(calls, i, k)
    ensures calls[k].now - calls[i].now >= timeout
  {
    AcceptedRequestLasts(timeout, calls, i, k);
    EarlierCallsAreNotAfter(calls, k);
    LastIsNotLater(timeout, calls[..k], calls[k].now);
    AnswersFollowLastAccepted(timeout, calls[..k], calls[k].client, calls[k].now);
  }
}
