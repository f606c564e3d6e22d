/** The camera node's exposure transaction: automatic exposure and a fixed exposure time must
    not be on at the same time, and a default exposure time that had to go is kept aside.

    Mode is ExposureTimeMode from libcamera 0.5 on (`etm`), and AeEnable before.
 */
module ExposureConflict {
  import opened Numbers

  datatype Name = Mode | Time | Another(name: string)

  datatype Value = Unset | Bool(b: bool) | Int(n: int) | Other

  datatype Param = Param(name: Name, value: Value)

  type Values = map<Name, Value>

  datatype Build = Build(etm: bool, minTime: int, maxTime: int)
  {
    predicate Auto(v: Value) {
      if etm then v == Int(0) else v == Bool(true)
    }

    /** What restore() takes for a switch to manual exposure. */
    predicate Manual(v: Value) {
      if etm then v == Int(1) else v != Unset && v != Bool(true)
    }

    const AUTO: Value := if etm then Int(0) else Bool(true)
    const MANUAL: Value := if etm then Int(1) else Bool(false)

    /** A mode that get<int32_t>() or get<bool>() accepts. */
    predicate Typed(v: Value) {
      if etm then v.Int? else v.Bool?
    }

    /** Type and range checks of one parameter, as far as the exposure goes. */
    predicate Acceptable(p: Param) {
      match p.name
      case Mode => p.value == Unset || p.value == AUTO || p.value == MANUAL
      case Time => p.value == Unset || (p.value.Int? && minTime <= p.value.n <= maxTime)
      case Another(_) => true
    }
  }

  // Lists and maps of parameters ----------------------------------------------------------

  /** The first set value of a name. */
  function Find(params: seq<Param>, name: Name): Option<Value> {
    if params == [] then None
    else if params[0].name == name && params[0].value != Unset then Some(params[0].value)
    else Find(params[1..], name)
  }

  predicate IsSet(params: seq<Param>, name: Name) {
    Find(params, name).Some?
  }

  predicate IsSetIn(p: Values, name: Name) {
    name in p && p[name] != Unset
  }

  /** The old parameters that no new one overrides. */
  function Kept(current: seq<Param>, requested: seq<Param>): seq<Param> {
    if current == [] then []
    else
      var rest := Kept(current[..|current| - 1], requested);
      var p := current[|current| - 1];
      if IsSet(requested, p.name) then rest else rest + [p]
  }

  method Merge(current: seq<Param>, requested: seq<Param>) returns (merged: seq<Param>)
    ensures merged == requested + Kept(current, requested)
  {
    merged := requested;
    for i := 0 to |current|
      invariant merged == requested + Kept(current[..i], requested)
    {
      assert current[..i + 1][..i] == current[..i];
      if !IsSet(requested, current[i].name) {
        merged := merged + [current[i]];
      }
    }
    assert current[..|current|] == current;
  }

  lemma {:induction false} FindConcat(a: seq<Param>, b: seq<Param>, name: Name)
    ensures Find(a + b, name) == if Find(a, name).Some? then Find(a, name) else Find(b, name)
  {
    if a == [] {
      assert a + b == b;
    } else {
      assert (a + b)[1..] == a[1..] + b;
      FindConcat(a[1..], b, name);
    }
  }

  lemma {:induction false} FindKept(current: seq<Param>, requested: seq<Param>, name: Name)
    ensures Find(Kept(current, requested), name) == if IsSet(requested, name) then None else Find(current, name)
  {
    if current != [] {
      var before, p := current[..|current| - 1], current[|current| - 1];
      FindKept(before, requested, name);
      FindConcat(before, [p], name);
      assert current == before + [p] && [p][1..] == [];
      if !IsSet(requested, p.name) {
        FindConcat(Kept(before, requested), [p], name);
      }
    }
  }

  // The conflict handler ----------------------------------------------------------------------

  datatype Handler = Handler(store: Values, tmpStore: Values)

  /** conflict_exposure(); None where get() throws. */
  function Conflict(build: Build, p: Values): Option<bool> {
    if !IsSetIn(p, Mode) then Some(false)
    else if !build.Typed(p[Mode]) then None
    else Some(build.Auto(p[Mode]) && IsSetIn(p, Time))
  }

  function ResolvedDefaults(build: Build, h: Handler, p: Values): Option<(Handler, Values)> {
    var q := if Mode in p && p[Mode] == Unset then p[Mode := build.AUTO] else p;
    match Conflict(build, q)
    case None => None
    case Some(false) => Some((h, q))
    case Some(true) => Some((h.(store := h.store[Time := q[Time]]), q[Time := Unset]))
  }

  function ResolvedOverrides(build: Build, h: Handler, p: Values): Option<(Handler, Values)> {
    var conflict := Conflict(build, p);
    if conflict.None? then None
    else
      var q := if conflict.value then p[Mode := build.MANUAL] else p;
      if IsSetIn(q, Mode) && build.Manual(q[Mode]) && !IsSetIn(q, Time) && Time in h.store
      then Some((h.(store := h.store - {Time}), q[Time := h.store[Time]]))
      else Some((h, q))
  }

  function Restored(build: Build, h: Handler, params: seq<Param>): (Handler, seq<Param>) {
    var copied := h.(tmpStore := h.store);
    var mode := Find(params, Mode);
    if mode.None? then (copied, params)
    else if !build.Manual(mode.value) then (copied, params + [Param(Time, Unset)])
    else if Time in h.store && !IsSet(params, Time)
    then (copied.(tmpStore := h.store - {Time}), params + [Param(Time, h.store[Time])])
    else (copied, params)
  }

  function Committed(h: Handler, commit: bool): Handler {
    if commit then Handler(h.tmpStore, map[]) else h.(tmpStore := map[])
  }

  /** check(): the new values switch or leave automatic exposure on and set a time. */
  predicate Refuses(build: Build, current: seq<Param>, requested: seq<Param>) {
    var mode := Find(requested + Kept(current, requested), Mode);
    mode.Some? && build.Auto(mode.value) && IsSet(requested, Time)
  }

  class ParameterConflictHandler {
    const build: Build
    var store: Values
    var tmpStore: Values

    function Value(): Handler
      reads this
    {
      Handler(store, tmpStore)
    }

    constructor (build: Build)
      ensures this.build == build && Value() == Handler(map[], map[])
    {
      this.build, store, tmpStore := build, map[], map[];
    }

    method ResolveDefaults(p: Values) returns (resolved: Option<Values>)
      modifies this
      ensures var r := ResolvedDefaults(build, old(Value()), p);
              if r.None? then resolved == None && Value() == old(Value())
              else resolved == Some(r.value.1) && Value() == r.value.0
    {
      var q := p;
      if Mode in q && q[Mode] == Unset {
        q := q[Mode := build.AUTO];
      }
      var conflict := Conflict(build, q);
      if conflict.None? {
        return None;
      }
      if conflict.value {
        store := store[Time := q[Time]];
        q := q[Time := Unset];
      }
      resolved := Some(q);
    }

    method ResolveOverrides(p: Values) returns (resolved: Option<Values>)
      modifies this
      ensures var r := ResolvedOverrides(build, old(Value()), p);
              if r.None? then resolved == None && Value() == old(Value())
              else resolved == Some(r.value.1) && Value() == r.value.0
    {
      var q := p;
      var conflict := Conflict(build, q);
      if conflict.None? {
        return None;
      }
      if conflict.value {
        q := q[Mode := build.MANUAL];
      }
      if IsSetIn(q, Mode) && build.Manual(q[Mode]) && !IsSetIn(q, Time) && Time in store {
        q := q[Time := store[Time]];
        store := store - {Time};
      }
      resolved := Some(q);
    }

    method Check(current: seq<Param>, requested: seq<Param>) returns (conflict: bool)
      ensures conflict == Refuses(build, current, requested)
    {
      var merged := Merge(current, requested);
      var mode := Find(merged, Mode);
      conflict := mode.Some? && build.Auto(mode.value) && IsSet(requested, Time);
    }

    method Restore(params: seq<Param>) returns (extended: seq<Param>)
      modifies this
      ensures Value() == Restored(build, old(Value()), params).0
      ensures extended == Restored(build, old(Value()), params).1
    {
      extended := params;
      tmpStore := store;
      if IsSet(params, Mode) {
        if build.Manual(Find(params, Mode).value) {
          if Time in tmpStore && !IsSet(params, Time) {
            extended := extended + [Param(Time, tmpStore[Time])];
            tmpStore := tmpStore - {Time};
          }
        } else {
          extended := extended + [Param(Time, Unset)];
        }
      }
    }

    method StoreCommitOrRevert(commit: bool)
      modifies this
      ensures Value() == Committed(old(Value()), commit)
    {
      if commit {
        store, tmpStore := tmpStore, map[];
      } else {
        tmpStore := map[];
      }
    }
  }

  // The node's parameters ------------------------------------------------------------------------

  /** The conflict handler and the exposure parameters the node holds. */
  datatype Camera = Camera(handler: Handler, mode: Value, time: Value)

  function Parameters(c: Camera): seq<Param> {
    [Param(Mode, c.mode), Param(Time, c.time)]
  }

  /** The value of a name after all the parameters of a list are set in turn. */
  function Last(params: seq<Param>, name: Name, before: Value): Value {
    if params == [] then before
    else if params[|params| - 1].name == name then params[|params| - 1].value
    else Last(params[..|params| - 1], name, before)
  }

  predicate AllAcceptable(build: Build, params: seq<Param>) {
    forall i :: 0 <= i < |params| ==> build.Acceptable(params[i])
  }

  /** One attempt to set parameters: the callback before it may extend the list, the next one
      accepts or refuses. `othersFit` says that no other parameter is at fault. */
  function Attempt(build: Build, c: Camera, request: seq<Param>, othersFit: bool): (Camera, bool) {
    if request == [] then (c, true)
    else
      var (h, params) := Restored(build, c.handler, request);
      var ok := !Refuses(build, Parameters(c), params) && othersFit && AllAcceptable(build, params);
      if ok then (Camera(Committed(h, true), Last(params, Mode, c.mode), Last(params, Time, c.time)), true)
      else (c.(handler := Committed(h, false)), false)
  }

  class ParameterHandler {
    const build: Build
    const conflicts: ParameterConflictHandler
    var mode: Value
    var time: Value

    ghost predicate Valid()
      reads this
    {
      conflicts.build == build
    }

    function State(): Camera
      reads this, conflicts
    {
      Camera(conflicts.Value(), mode, time)
    }

    constructor (build: Build)
      ensures Valid() && fresh(conflicts) && State() == Camera(Handler(map[], map[]), Unset, Unset)
    {
      this.build := build;
      conflicts := new ParameterConflictHandler(build);
      mode, time := Unset, Unset;
    }

    method PreSetResolve(params: seq<Param>) returns (extended: seq<Param>)
      requires Valid()
      modifies conflicts
      ensures Valid()
      ensures params == [] ==> extended == [] && State() == old(State())
      ensures params != [] ==>
                State() == old(State()).(handler := Restored(build, old(conflicts.Value()), params).0)
                && extended == Restored(build, old(conflicts.Value()), params).1
    {
      if params == [] {
        return params;
      }
      extended := conflicts.Restore(params);
    }

    method OnSetValidate(params: seq<Param>, othersFit: bool) returns (successful: bool)
      requires Valid()
      modifies conflicts
      ensures Valid()
      ensures successful == (!Refuses(build, Parameters(old(State())), params) && othersFit
                             && AllAcceptable(build, params))
      ensures State() == old(State()).(handler := Committed(old(conflicts.Value()), successful))
    {
      var refused := conflicts.Check([Param(Mode, mode), Param(Time, time)], params);
      successful := !refused && othersFit && AllAcceptable(build, params);
      conflicts.StoreCommitOrRevert(successful);
    }

    /** rclcpp's set_parameters_atomically() with the two callbacks above. */
    method SetParametersAtomically(request: seq<Param>, othersFit: bool) returns (successful: bool)
      requires Valid()
      modifies this`mode, this`time, conflicts
      ensures Valid()
      ensures (State(), successful) == Attempt(build, old(State()), request, othersFit)
    {
      var params := PreSetResolve(request);
      if params == [] {
        return true;
      }
      successful := OnSetValidate(params, othersFit);
      if successful {
        mode, time := Last(params, Mode, mode), Last(params, Time, time);
      }
    }
  }

  // Single attempts --------------------------------------------------------------------------------

  /** What must never be: automatic exposure and a set time. */
  predicate Both(build: Build, c: Camera) {
    build.Auto(c.mode) && c.time != Unset
  }

  /** An attempt leaves nothing in tmp_store, and a refused one leaves everything else as it was. */
  lemma AttemptIsATransaction(build: Build, c: Camera, request: seq<Param>, othersFit: bool)
    requires request != []
    ensures var (after, ok) := Attempt(build, c, request, othersFit);
            && after.handler.tmpStore == map[]
            && (!ok ==> after == c.(handler := c.handler.(tmpStore := map[])))
  {
  }

  /** If rclcpp itself refuses a set after the first callback, the second never runs. */
  function Interrupted(build: Build, c: Camera, request: seq<Param>): Camera {
    if request == [] then c else c.(handler := Restored(build, c.handler, request).0)
  }

  /** The next attempt then trips over assert(tmp_store.empty()) exactly when a stored value is
      left that this request would not have given back ... */
  lemma InterruptionLeavesTrace(build: Build, c: Camera, request: seq<Param>)
    requires request != []
    ensures Interrupted(build, c, request).handler.tmpStore == map[] <==>
            c.handler.store.Keys <=
              if IsSet(request, Mode) && build.Manual(Find(request, Mode).value) && !IsSet(request, Time)
              then {Time} else {}
  {
    var left := Interrupted(build, c, request).handler.tmpStore;
    assert left == map[] <==> left.Keys == {};
  }

  /** ... but where assertions are compiled out, it changes no later attempt. */
  lemma InterruptionIsForgotten(build: Build, c: Camera, interrupted: seq<Param>, request: seq<Param>,
                                othersFit: bool)
    requires request != []
    ensures Attempt(build, Interrupted(build, c, interrupted), request, othersFit)
            == Attempt(build, c, request, othersFit)
  {
  }

  // Which requests are safe ------------------------------------------------------------------------------

  /** The mode is first set to something else and last to automatic, and the time is not last
      unset after having been set. */
  predicate Unsafe(build: Build, request: seq<Param>) {
    var first := Find(request, Mode);
    && AllAcceptable(build, request) && first.Some? && !build.Auto(first.value)
    && build.Auto(Last(request, Mode, Unset))
    && (IsSet(request, Time) ==> Last(request, Time, Other) != Unset)
  }

  lemma {:induction false} LastConcat(a: seq<Param>, p: Param, name: Name, before: Value)
    ensures Last(a + [p], name, before) == if p.name == name then p.value else Last(a, name, before)
  {
    assert (a + [p])[..|a|] == a;
  }

  /** A name that is never set is last unset or not mentioned. */
  lemma {:induction false} NeverSet(params: seq<Param>, name: Name, before: Value)
    requires !IsSet(params, name)
    ensures Last(params, name, before) in {before, Unset}
  {
    if params != [] {
      var n := |params| - 1;
      assert params == params[..n] + [params[n]] && [params[n]][1..] == [];
      FindConcat(params[..n], [params[n]], name);
      NeverSet(params[..n], name, before);
    }
  }

  /** A name that is set somewhere has a last value, whatever it was before. */
  lemma {:induction false} SetSomewhere(params: seq<Param>, name: Name, before: Value, other: Value)
    requires IsSet(params, name)
    ensures Last(params, name, before) == Last(params, name, other)
  {
    var n := |params| - 1;
    assert params == params[..n] + [params[n]] && [params[n]][1..] == [];
    FindConcat(params[..n], [params[n]], name);
    if params[n].name != name {
      SetSomewhere(params[..n], name, before, other);
    }
  }

  lemma {:induction false} FindAcceptable(build: Build, params: seq<Param>, name: Name)
    requires AllAcceptable(build, params) && Find(params, name).Some?
    ensures build.Acceptable(Param(name, Find(params, name).value)) && Find(params, name).value != Unset
  {
    if !(params[0].name == name && params[0].value != Unset) {
      FindAcceptable(build, params[1..], name);
    }
  }

  /** What check() sees: the request's mode, or else the node's. */
  lemma RefusesMeaning(build: Build, c: Camera, params: seq<Param>)
    ensures Refuses(build, Parameters(c), params) <==>
            && IsSet(params, Time)
            && build.Auto(if IsSet(params, Mode) then Find(params, Mode).value else c.mode)
  {
    var current := Parameters(c);
    FindConcat(params, Kept(current, params), Mode);
    FindKept(current, params, Mode);
    hide Kept;
    var time := [Param(Time, c.time)];
    assert current[1..] == time && time[1..] == [];
    assert Find(time, Mode) == Find(time[1..], Mode) == None;
    assert Find(current, Mode) == if c.mode != Unset then Some(c.mode) else None;
  }

  lemma SafeAttempt(build: Build, c: Camera, request: seq<Param>, othersFit: bool)
    requires !Both(build, c) && !Unsafe(build, request)
    ensures !Both(build, Attempt(build, c, request, othersFit).0)
  {
    var (after, ok) := Attempt(build, c, request, othersFit);
    if request != [] && ok && build.Auto(after.mode) {
      var params := Restored(build, c.handler, request).1;
      RestoredParts(build, c.handler, request);
      RefusesMeaning(build, c, params);
      hide Refuses;
      hide Restored;
      assert AllAcceptable(build, request) by {
        assert forall i :: 0 <= i < |request| ==> request[i] == params[i];
      }
      hide AllAcceptable;
      if !IsSet(request, Mode) {
        NeverSet(request, Mode, c.mode);
        assert params == request;
        NeverSet(request, Time, c.time);
      } else {
        SetSomewhere(request, Mode, c.mode, Unset);
        if !build.Auto(Find(request, Mode).value) {
          assert IsSet(request, Time) && Last(request, Time, Other) == Unset;
          SetSomewhere(request, Time, c.time, Other);
        }
      }
    }
  }

  /** The list restore() makes of a request, as far as the node is concerned. */
  lemma RestoredParts(build: Build, h: Handler, request: seq<Param>)
    ensures var params := Restored(build, h, request).1;
            var first := Find(request, Mode);
            && (params == request || (|params| == |request| + 1 && params[..|request|] == request))
            && (first.None? ==> params == request)
            && Find(params, Mode) == first
            && (forall before :: Last(params, Mode, before) == Last(request, Mode, before))
            && (IsSet(request, Time) ==> Find(params, Time) == Find(request, Time))
            && (first.Some? && !build.Manual(first.value) ==>
                  forall before :: Last(params, Time, before) == Unset)
            && (first.Some? && build.Manual(first.value) && IsSet(request, Time) ==> params == request)
            && (first.Some? && build.Manual(first.value) && !IsSet(request, Time) && Time in h.store ==>
                  params == request + [Param(Time, h.store[Time])]
                  && forall before :: Last(params, Time, before) == h.store[Time])
  {
    var params := Restored(build, h, request).1;
    if params != request {
      var p := params[|request|];
      assert params == request + [p] && [p][1..] == [];
      FindConcat(request, [p], Mode);
      FindConcat(request, [p], Time);
      forall before ensures Last(params, Mode, before) == Last(request, Mode, before)
                            && Last(params, Time, before) == p.value
      {
        LastConcat(request, p, Mode, before);
        LastConcat(request, p, Time, before);
      }
    }
  }

  ghost predicate Distinct(params: seq<Param>) {
    forall i, k :: 0 <= i < k < |params| ==> params[i].name != params[k].name
  }

  /** A request that names each parameter once is safe. */
  lemma DistinctIsSafe(build: Build, request: seq<Param>)
    requires Distinct(request)
    ensures !Unsafe(build, request)
  {
    if IsSet(request, Mode) {
      OnceIsLast(request, Mode, Unset);
    }
  }

  lemma {:induction false} OnceIsLast(params: seq<Param>, name: Name, before: Value)
    requires Distinct(params) && IsSet(params, name)
    ensures Last(params, name, before) == Find(params, name).value
  {
    var n := |params| - 1;
    var first, last := params[..n], params[n];
    assert params == first + [last] && [last][1..] == [];
    FindConcat(first, [last], name);
    if last.name == name {
      NotMentioned(first, name);
    } else {
      OnceIsLast(first, name, before);
    }
  }

  lemma {:induction false} NotMentioned(params: seq<Param>, name: Name)
    requires forall i :: 0 <= i < |params| ==> params[i].name != name
    ensures Find(params, name) == None
  {
    if params != [] {
      NotMentioned(params[1..], name);
    }
  }

  // Whole runs --------------------------------------------------------------------------------------------

  datatype Op =
    | Set(request: seq<Param>, othersFit: bool)
    | Interrupt(request: seq<Param>)

  datatype Run = Run(build: Build, cams: seq<Camera>, ops: seq<Op>)

  function After(build: Build, c: Camera, op: Op): Camera {
    match op
    case Set(request, othersFit) => Attempt(build, c, request, othersFit).0
    case Interrupt(request) => Interrupted(build, c, request)
  }

  /** The parameter list of a map, in any order. */
  ghost predicate Lists(params: seq<Param>, p: Values) {
    && Distinct(params)
    && (forall i :: 0 <= i < |params| ==> params[i].name in p && p[params[i].name] == params[i].value)
    && (forall name :: name in p ==> exists i :: 0 <= i < |params| && params[i].name == name)
  }

  function Overridden(p: Values, overrides: Values): Values {
    map name | name in p :: if name in overrides then overrides[name] else p[name]
  }

  /** declare(): the handler and the list of initial values; None where get() throws. */
  function Resolved(build: Build, defaults: Values, overrides: Values): Option<(Handler, Values)> {
    match ResolvedDefaults(build, Handler(map[], map[]), defaults)
    case None => None
    case Some((h, p)) => ResolvedOverrides(build, h, Overridden(p, overrides))
  }

  /** A node that has declared its parameters, with camera controls for the mode and the time. */
  ghost predicate Declared(build: Build, c: Camera, defaults: Values, overrides: Values,
                           params: seq<Param>, othersFit: bool)
  {
    var resolved := Resolved(build, defaults, overrides);
    && Mode in defaults && Time in defaults && resolved.Some? && Lists(params, resolved.value.1)
    && c == Attempt(build, Camera(resolved.value.0, Unset, Unset), params, othersFit).0
  }

  ghost predicate StepAt(r: Run, i: int)
    requires |r.cams| == |r.ops| + 1 && 0 <= i < |r.ops|
  {
    r.cams[i + 1] == After(r.build, r.cams[i], r.ops[i])
  }

  ghost predicate Steps(r: Run) {
    |r.cams| == |r.ops| + 1 && forall i :: 0 <= i < |r.ops| ==> StepAt(r, i)
  }

  ghost predicate IsRun(r: Run, defaults: Values, overrides: Values) {
    Steps(r)
    && exists params, othersFit :: Declared(r.build, r.cams[0], defaults, overrides, params, othersFit)
  }

  /** The first k attempts ask for nothing unsafe. */
  ghost predicate SafeUntil(r: Run, k: int)
    requires 0 <= k <= |r.ops|
  {
    forall i :: 0 <= i < k && r.ops[i].Set? ==> !Unsafe(r.build, r.ops[i].request)
  }

  /** After declaration and after every safe attempt, accepted or refused or interrupted,
      automatic exposure and a set time never coexist. */
  lemma {:induction false} NeverBoth(r: Run, defaults: Values, overrides: Values, k: nat)
    requires IsRun(r, defaults, overrides) && k <= |r.ops| && SafeUntil(r, k)
    ensures !Both(r.build, r.cams[k])
  {
    hide Unsafe;
    if k == 0 {
      var params, othersFit :| Declared(r.build, r.cams[0], defaults, overrides, params, othersFit);
      DistinctIsSafe(r.build, params);
      SafeAttempt(r.build, Camera(Resolved(r.build, defaults, overrides).value.0, Unset, Unset),
                  params, othersFit);
    } else {
      NeverBoth(r, defaults, overrides, k - 1);
      var op := r.ops[k - 1];
      assert StepAt(r, k - 1);
      hide IsRun;
      if op.Set? {
        SafeAttempt(r.build, r.cams[k - 1], op.request, op.othersFit);
      }
      hide Attempt;
    }
  }

  /** The run in which an unsafe request does its harm: defaults in conflict, nothing
      overridden, so that the node starts automatic with a time put aside; and the request. */
  function Harm(build: Build, request: seq<Param>): Run {
    var c := Camera(Handler(map[Time := Int(build.minTime)], map[]), build.AUTO, Unset);
    var op := Set(request, true);
    Run(build, [c, After(build, c, op)], [op])
  }

  function ConflictingDefaults(build: Build): Values {
    map[Mode := Unset, Time := Int(build.minTime)]
  }

  lemma StartsAutomatic(build: Build, h: Handler)
    ensures var params := [Param(Mode, build.AUTO), Param(Time, Unset)];
            Attempt(build, Camera(h, Unset, Unset), params, true).0
            == Camera(Handler(h.store, map[]), build.AUTO, Unset)
  {
    var params, c := [Param(Mode, build.AUTO), Param(Time, Unset)], Camera(h, Unset, Unset);
    var p := Param(Time, Unset);
    assert [p, p][1..] == [p] && [p][1..] == [];
    assert (params + [p])[1..] == [p, p];
    assert Find([p, p], Time) == Find([p], Time) == Find([], Time);
    RestoredParts(build, h, params);
    RefusesMeaning(build, c, params + [p]);
    hide Refuses;
    assert Find(params, Mode) == Some(build.AUTO);
    assert Restored(build, h, params) == (h.(tmpStore := h.store), params + [p]);
    assert params[..1] == [Param(Mode, build.AUTO)] && params[..2] == params;
    assert Last(params, Mode, Unset) == Last(params[..1], Mode, Unset) == build.AUTO;
    hide Restored;
    assert Find(params + [p], Time) == None;
    assert AllAcceptable(build, params + [p]);
  }

  lemma HarmIsRun(build: Build, request: seq<Param>)
    ensures IsRun(Harm(build, request), ConflictingDefaults(build), map[])
  {
    var r, defaults := Harm(build, request), ConflictingDefaults(build);
    ConflictIsStored(build, defaults);
    var (h, p) := ResolvedDefaults(build, Handler(map[], map[]), defaults).value;
    assert Overridden(p, map[]) == p;
    var params := [Param(Mode, build.AUTO), Param(Time, Unset)];
    assert Lists(params, p) by {
      assert params[0].name == Mode && params[1].name == Time;
    }
    StartsAutomatic(build, h);
    hide Attempt;
    hide Lists;
    assert Declared(build, r.cams[0], defaults, map[], params, true);
    assert StepAt(r, 0);
  }

  lemma UnsafeAttempt(build: Build, request: seq<Param>)
    requires Unsafe(build, request) && build.minTime <= build.maxTime
    ensures Both(build, Harm(build, request).cams[1])
    ensures !IsSet(request, Time) ==> Harm(build, request).cams[1].time == Int(build.minTime)
  {
    var c := Harm(build, request).cams[0];
    var params := Restored(build, c.handler, request).1;
    FindAcceptable(build, request, Mode);
    RestoredParts(build, c.handler, request);
    RefusesMeaning(build, c, params);
    hide Refuses;
    assert AllAcceptable(build, params);
    hide Restored;
    hide AllAcceptable;
    SetSomewhere(request, Mode, Unset, c.mode);
    if IsSet(request, Time) {
      SetSomewhere(request, Time, Other, c.time);
    }
  }

  /** The request does no harm as attempt k of a run that was safe until then. */
  ghost predicate Harmless(r: Run, defaults: Values, overrides: Values, k: int, request: seq<Param>) {
    IsRun(r, defaults, overrides) && 0 <= k < |r.ops| && SafeUntil(r, k)
    && r.ops[k].Set? && r.ops[k].request == request
    ==> !Both(r.build, r.cams[k + 1])
  }

  /** Automatic exposure and a set time come together exactly through an unsafe request: a safe
      one never brings them together, in any run; and for any other there is a run, from the
      declaration on, in which it does. */
  lemma RequestIsSafeExactly(build: Build, request: seq<Param>)
    requires build.minTime <= build.maxTime
    ensures !Unsafe(build, request) <==>
            forall r: Run, defaults, overrides, k ::
              r.build == build ==> Harmless(r, defaults, overrides, k, request)
  {
    if Unsafe(build, request) {
      UnsafeAttempt(build, request);
      HarmIsRun(build, request);
      assert !Harmless(Harm(build, request), ConflictingDefaults(build), map[], 0, request);
    } else {
      forall r: Run, defaults, overrides, k | r.build == build
        ensures Harmless(r, defaults, overrides, k, request)
      {
        hide Unsafe;
        hide IsRun;
        hide Both;
        if IsRun(r, defaults, overrides) && 0 <= k < |r.ops| && SafeUntil(r, k)
           && r.ops[k].Set? && r.ops[k].request == request {
          NeverBoth(r, defaults, overrides, k + 1);
        }
      }
    }
  }

  /** For example naming AeEnable twice, first off and then on: the stored default time comes
      back with the first, and the second leaves automatic exposure on. */
  lemma SwitchingTwiceBringsBoth(build: Build)
    requires build.minTime <= build.maxTime
    ensures var r := Harm(build, [Param(Mode, build.MANUAL), Param(Mode, build.AUTO)]);
            && IsRun(r, ConflictingDefaults(build), map[]) && !Both(build, r.cams[0])
            && r.cams[1].mode == build.AUTO && r.cams[1].time == Int(build.minTime)
  {
    var request := [Param(Mode, build.MANUAL), Param(Mode, build.AUTO)];
    SwitchingTwiceIsUnsafe(build);
    HarmIsRun(build, request);
    UnsafeAttempt(build, request);
    hide IsRun;
    hide Attempt;
    hide Unsafe;
  }

  lemma SwitchingTwiceIsUnsafe(build: Build)
    ensures var request := [Param(Mode, build.MANUAL), Param(Mode, build.AUTO)];
            Unsafe(build, request) && !IsSet(request, Time)
  {
    var request := [Param(Mode, build.MANUAL), Param(Mode, build.AUTO)];
    var second := [Param(Mode, build.AUTO)];
    assert request[1..] == second && second[1..] == [];
    assert Find(request, Time) == Find(second, Time) == Find(second[1..], Time);
  }

  /** Values the camera takes: a mode, and a time within its range. */
  predicate Proper(build: Build, c: Camera) {
    && (c.mode == Unset || c.mode == build.AUTO || c.mode == build.MANUAL)
    && (c.time == Unset || (c.time.Int? && build.minTime <= c.time.n <= build.maxTime))
  }

  lemma {:induction false} LastIsAcceptable(build: Build, params: seq<Param>, name: Name, before: Value)
    requires AllAcceptable(build, params) && build.Acceptable(Param(name, before))
    ensures build.Acceptable(Param(name, Last(params, name, before)))
  {
    if params != [] && params[|params| - 1].name != name {
      LastIsAcceptable(build, params[..|params| - 1], name, before);
    }
  }

  lemma AttemptStaysProper(build: Build, c: Camera, request: seq<Param>, othersFit: bool)
    requires Proper(build, c)
    ensures Proper(build, Attempt(build, c, request, othersFit).0)
  {
    var params := Restored(build, c.handler, request).1;
    if AllAcceptable(build, params) {
      LastIsAcceptable(build, params, Mode, c.mode);
      LastIsAcceptable(build, params, Time, c.time);
    }
    hide Refuses;
    hide AllAcceptable;
    hide Restored;
  }

  /** In every run, whatever was asked for, the camera's mode is one it knows and its exposure time
      is within its range. */
  lemma {:induction false} AlwaysProper(r: Run, defaults: Values, overrides: Values, k: nat)
    requires IsRun(r, defaults, overrides) && k <= |r.ops|
    ensures Proper(r.build, r.cams[k])
  {
    if k == 0 {
      var params, othersFit :| Declared(r.build, r.cams[0], defaults, overrides, params, othersFit);
      AttemptStaysProper(r.build, Camera(Resolved(r.build, defaults, overrides).value.0, Unset, Unset),
                         params, othersFit);
    } else {
      AlwaysProper(r, defaults, overrides, k - 1);
      var op := r.ops[k - 1];
      assert StepAt(r, k - 1);
      if op.Set? {
        AttemptStaysProper(r.build, r.cams[k - 1], op.request, op.othersFit);
      }
      hide Attempt;
    }
  }

  /** A switch to manual exposure that sets no time of its own. */
  predicate BareManual(build: Build, request: seq<Param>) {
    IsSet(request, Mode) && build.Manual(Find(request, Mode).value) && !IsSet(request, Time)
  }

  /** One attempt keeps a stored time, unless it gives it back. */
  lemma StoredTimeStep(build: Build, c: Camera, request: seq<Param>, othersFit: bool, time: Value)
    requires c.handler.store == map[Time := time]
    ensures var (after, ok) := Attempt(build, c, request, othersFit);
            if ok && BareManual(build, request)
            then after.time == time && after.handler.store == map[]
            else after.handler.store == c.handler.store
  {
    RestoredParts(build, c.handler, request);
    hide Refuses;
    hide AllAcceptable;
    assert map[Time := time] - {Time} == map[];
  }

  /** The defaults are in conflict: automatic or unset mode, and a set time. */
  predicate DefaultsConflict(build: Build, defaults: Values) {
    Mode in defaults && Time in defaults && defaults[Time] != Unset
    && (defaults[Mode] == Unset || build.Auto(defaults[Mode]))
  }

  lemma ConflictIsStored(build: Build, defaults: Values)
    requires DefaultsConflict(build, defaults)
    ensures var r := ResolvedDefaults(build, Handler(map[], map[]), defaults);
            && r.Some? && r.value.0.store == map[Time := defaults[Time]]
            && r.value.1 == defaults[Mode := build.AUTO][Time := Unset]
  {
    if defaults[Mode] != Unset {
      assert defaults == defaults[Mode := build.AUTO];
    }
  }

  /** Step i gives the stored time back: the first accepted bare switch to manual exposure. */
  predicate GivesBack(r: Run, i: int)
    requires |r.cams| == |r.ops| + 1 && 0 <= i < |r.ops|
  {
    r.ops[i].Set? && BareManual(r.build, r.ops[i].request)
    && Attempt(r.build, r.cams[i], r.ops[i].request, r.ops[i].othersFit).1
  }

  lemma {:induction false} StoredTimeIsKept(r: Run, k: nat, time: Value)
    requires Steps(r) && k <= |r.ops|
    requires r.cams[0].handler.store == map[Time := time]
    requires forall i :: 0 <= i < k ==> !GivesBack(r, i)
    ensures r.cams[k].handler.store == map[Time := time]
  {
    if k > 0 {
      hide Attempt;
      hide BareManual;
      StoredTimeIsKept(r, k - 1, time);
      var op := r.ops[k - 1];
      assert !GivesBack(r, k - 1) && StepAt(r, k - 1);
      if op.Set? {
        StoredTimeStep(r.build, r.cams[k - 1], op.request, op.othersFit, time);
      } else {
        InterruptionKeepsStore(r.build, r.cams[k - 1], op.request);
      }
    }
  }

  lemma InterruptionKeepsStore(build: Build, c: Camera, request: seq<Param>)
    ensures Interrupted(build, c, request).handler.store == c.handler.store
  {
  }

  /** A default time that resolve_defaults() put aside is kept through every attempt and given
      back with its original value by the first accepted switch to manual exposure that sets
      no time of its own: at declaration, if the overrides are one, or else later. */
  lemma DefaultTimeIsGivenBack(r: Run, defaults: Values, overrides: Values, k: nat)
    requires IsRun(r, defaults, overrides) && DefaultsConflict(r.build, defaults)
    requires r.cams[0].handler.store != map[]
    requires k < |r.ops| && GivesBack(r, k) && forall i :: 0 <= i < k ==> !GivesBack(r, i)
    ensures r.cams[k + 1].time == defaults[Time] && r.cams[k + 1].handler.store == map[]
    ensures Distinct(r.ops[k].request) ==> r.build.Manual(r.cams[k + 1].mode)
  {
    StoreAtStart(r, defaults, overrides);
    StoredTimeIsKept(r, k, defaults[Time]);
    assert StepAt(r, k);
    var op := r.ops[k];
    StoredTimeStep(r.build, r.cams[k], op.request, op.othersFit, defaults[Time]);
    RestoredParts(r.build, r.cams[k].handler, op.request);
    if Distinct(op.request) {
      OnceIsLast(op.request, Mode, r.cams[k].mode);
    }
  }

  /** Declaration leaves the default time in store, or gave it back. */
  lemma StoreAtStart(r: Run, defaults: Values, overrides: Values)
    requires IsRun(r, defaults, overrides) && DefaultsConflict(r.build, defaults)
    ensures r.cams[0].handler.store in {map[], map[Time := defaults[Time]]}
  {
    var params, othersFit :| Declared(r.build, r.cams[0], defaults, overrides, params, othersFit);
    DeclarationKeepsOrGivesBack(r.build, r.cams[0], defaults, overrides, params, othersFit);
  }

  lemma {:induction false} FindListed(params: seq<Param>, p: Values, name: Name)
    requires Distinct(params)
    requires forall i :: 0 <= i < |params| ==> params[i].name in p && p[params[i].name] == params[i].value
    ensures Find(params, name).Some? ==> name in p && p[name] == Find(params, name).value
    ensures (exists i :: 0 <= i < |params| && params[i].name == name) && IsSetIn(p, name) ==>
              Find(params, name) == Some(p[name])
  {
    if params != [] && !(params[0].name == name && params[0].value != Unset) {
      FindListed(params[1..], p, name);
      if i :| 0 <= i < |params| && params[i].name == name {
        assert i > 0 ==> params[1..][i - 1].name == name;
      }
    }
  }

  /** With defaults in conflict, the node starts with the default time in store; unless the
      overrides switch to manual without a time, when the node starts with the default time
      exactly if that is within the camera's range and no other parameter is refused with it.
      Otherwise the default time is lost. */
  lemma DeclarationKeepsOrGivesBack(build: Build, c: Camera, defaults: Values, overrides: Values,
                                    params: seq<Param>, othersFit: bool)
    requires Declared(build, c, defaults, overrides, params, othersFit)
    requires DefaultsConflict(build, defaults)
    ensures var p := Overridden(defaults[Mode := build.AUTO][Time := Unset], overrides);
            if p[Mode] != Unset && build.Manual(p[Mode]) && p[Time] == Unset
            then c.handler.store == map[]
                 && (c.time == defaults[Time] <==>
                       othersFit && build.Acceptable(Param(Time, defaults[Time])))
            else c.handler.store == map[Time := defaults[Time]]
  {
    ConflictIsStored(build, defaults);
    var time := defaults[Time];
    assert map[Time := time] - {Time} == map[];
    var (h, q) := Resolved(build, defaults, overrides).value;
    var start := Camera(h, Unset, Unset);
    FindListed(params, q, Mode);
    FindListed(params, q, Time);
    if h.store == map[] {
      EmptyStays(build, start, params, othersFit);
      assert q[Time] == time;
      RestoredParts(build, h, params);
      OnceIsLast(params, Time, Unset);
      RefusesMeaning(build, start, params);
      hide Refuses;
      AllListedAcceptable(build, params, q);
    } else {
      StoredTimeStep(build, start, params, othersFit, time);
    }
  }

  lemma {:induction false} LastListed(params: seq<Param>, p: Values, name: Name, before: Value)
    requires Distinct(params) && (exists i :: 0 <= i < |params| && params[i].name == name)
    requires forall i :: 0 <= i < |params| ==> params[i].name in p && p[params[i].name] == params[i].value
    ensures name in p && Last(params, name, before) == p[name]
  {
    var n := |params| - 1;
    if params[n].name != name {
      var i :| 0 <= i < |params| && params[i].name == name;
      assert params[..n][i].name == name;
      LastListed(params[..n], p, name, before);
    }
  }

  /** The mode a declaration asks for: an unset default is automatic unless overridden. */
  function WantedMode(build: Build, defaults: Values, overrides: Values): Value
    requires Mode in defaults
  {
    if Mode in overrides then overrides[Mode]
    else if defaults[Mode] == Unset then build.AUTO else defaults[Mode]
  }

  /** ... and the time: a default one that is in conflict with the default mode steps back. */
  function WantedTime(build: Build, defaults: Values, overrides: Values): Value
    requires Mode in defaults && Time in defaults
  {
    if Time in overrides then overrides[Time]
    else if DefaultsConflict(build, defaults) then Unset else defaults[Time]
  }

  ghost predicate ProperModes(build: Build, defaults: Values, overrides: Values) {
    && Mode in defaults && Time in defaults
    && defaults[Mode] in {Unset, build.AUTO, build.MANUAL}
    && (Mode in overrides ==> overrides[Mode] in {build.AUTO, build.MANUAL})
  }

  lemma ResolvedMeaning(build: Build, defaults: Values, overrides: Values)
    requires ProperModes(build, defaults, overrides)
    ensures var r := Resolved(build, defaults, overrides);
            var mode, time := WantedMode(build, defaults, overrides), WantedTime(build, defaults, overrides);
            var stored := DefaultsConflict(build, defaults);
            && r.Some? && Mode in r.value.1 && Time in r.value.1
            && r.value.1[Mode] == (if time != Unset then build.MANUAL else mode)
            && r.value.1[Time] ==
               (if time == Unset && mode == build.MANUAL && stored then defaults[Time] else time)
            && r.value.0.store ==
               if stored && !(time == Unset && mode == build.MANUAL) then map[Time := defaults[Time]] else map[]
  {
    var time := defaults[Time];
    assert map[Time := time] - {Time} == map[];
    if DefaultsConflict(build, defaults) {
      ConflictIsStored(build, defaults);
    }
  }

  /** The exposure a camera starts with. A time that is wanted brings manual exposure with it, even
      if the mode asked for is automatic; a default time steps back before automatic exposure,
      and comes with manual exposure when no other time is given. */
  lemma StartingExposure(build: Build, c: Camera, defaults: Values, overrides: Values, params: seq<Param>)
    requires Declared(build, c, defaults, overrides, params, true) && ProperModes(build, defaults, overrides)
    requires build.Acceptable(Param(Time, defaults[Time]))
    requires Time in overrides ==> build.Acceptable(Param(Time, overrides[Time]))
    ensures var mode, time := WantedMode(build, defaults, overrides), WantedTime(build, defaults, overrides);
            if time != Unset then c.mode == build.MANUAL && c.time == time
            else if mode == build.AUTO then c.mode == build.AUTO && c.time == Unset
            else c.mode == build.MANUAL
                 && c.time == if DefaultsConflict(build, defaults) then defaults[Time] else Unset
  {
    ResolvedMeaning(build, defaults, overrides);
    var (h, q) := Resolved(build, defaults, overrides).value;
    StartsWith(build, h, q, params);
    hide Resolved;
    hide Attempt;
    hide Lists;
  }

  /** The first attempt sets a list that is not in conflict, and adds no stored time to it. */
  lemma StartsWith(build: Build, h: Handler, q: Values, params: seq<Param>)
    requires Lists(params, q) && Mode in q && Time in q && q[Mode] in {build.AUTO, build.MANUAL}
    requires build.Acceptable(Param(Time, q[Time]))
    requires q[Mode] == build.AUTO ==> q[Time] == Unset
    requires q[Mode] == build.MANUAL && q[Time] == Unset ==> Time !in h.store
    ensures var c := Attempt(build, Camera(h, Unset, Unset), params, true).0;
            c.mode == q[Mode] && c.time == q[Time]
  {
    var start := Camera(h, Unset, Unset);
    AllListedAcceptable(build, params, q);
    FindListed(params, q, Mode);
    FindListed(params, q, Time);
    LastListed(params, q, Mode, Unset);
    LastListed(params, q, Time, Unset);
    RestoredParts(build, h, params);
    RefusesMeaning(build, start, Restored(build, h, params).1);
    FindIsSet(params, Time);
    assert params != [] && Find(params, Mode) == Some(q[Mode]);
    hide Refuses;
    hide AllAcceptable;
    hide Lists;
    if q[Mode] == build.AUTO {
      UnsetIsAccepted(build, h, params);
      FindConcat(params, [Param(Time, Unset)], Time);
      assert [Param(Time, Unset)][1..] == [];
      assert Restored(build, h, params).1 == params + [Param(Time, Unset)];
    } else {
      assert Restored(build, h, params).1 == params;
    }
    hide Restored;
  }

  lemma {:induction false} FindIsSet(params: seq<Param>, name: Name)
    ensures Find(params, name) != Some(Unset)
  {
    if params != [] {
      FindIsSet(params[1..], name);
    }
  }

  lemma UnsetIsAccepted(build: Build, h: Handler, params: seq<Param>)
    ensures AllAcceptable(build, params + [Param(Time, Unset)]) <==> AllAcceptable(build, params)
  {
    var all := params + [Param(Time, Unset)];
    assert forall i :: 0 <= i < |params| ==> all[i] == params[i];
  }

  /** A list is acceptable when the mode and the time are. */
  lemma AllListedAcceptable(build: Build, params: seq<Param>, p: Values)
    requires Lists(params, p) && Mode in p && Time in p
    ensures AllAcceptable(build, params) <==>
            build.Acceptable(Param(Mode, p[Mode])) && build.Acceptable(Param(Time, p[Time]))
  {
    var i :| 0 <= i < |params| && params[i].name == Mode;
    var k :| 0 <= k < |params| && params[k].name == Time;
    assert params[i] == Param(Mode, p[Mode]) && params[k] == Param(Time, p[Time]);
  }

  /** For example, a bare switch to manual beside some parameter that is refused: no attempt can
      bring the default time back, as the node has nothing left of it. */
  lemma DeclarationCanLoseTheTime(build: Build) returns (c: Camera)
    ensures var params := [Param(Mode, build.MANUAL), Param(Time, Int(build.minTime))];
            Declared(build, c, ConflictingDefaults(build), map[Mode := build.MANUAL], params, false)
    ensures c == Camera(Handler(map[], map[]), Unset, Unset)
  {
    var defaults, overrides := ConflictingDefaults(build), map[Mode := build.MANUAL];
    ConflictIsStored(build, defaults);
    var (h, p) := ResolvedDefaults(build, Handler(map[], map[]), defaults).value;
    var time := Int(build.minTime);
    assert map[Time := time] - {Time} == map[];
    var q := Overridden(p, overrides);
    assert q == map[Mode := build.MANUAL, Time := Unset];
    assert Resolved(build, defaults, overrides) == Some((Handler(map[], map[]), q[Time := time]));
    var params := [Param(Mode, build.MANUAL), Param(Time, time)];
    assert Lists(params, q[Time := time]) by {
      assert params[0].name == Mode && params[1].name == Time;
    }
    c := Attempt(build, Camera(Handler(map[], map[]), Unset, Unset), params, false).0;
  }

  lemma EmptyStays(build: Build, c: Camera, request: seq<Param>, othersFit: bool)
    requires c.handler.store == map[]
    ensures Attempt(build, c, request, othersFit).0.handler.store == map[]
  {
    hide Refuses;
  }
}
