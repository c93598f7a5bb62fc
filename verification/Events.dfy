/** The event dispatcher, the generation-keyed listener verdicts in front of it, and the tracking of
    detached observer tasks. */
module Events {
  import opened Options

  type Handler = nat
  type Table = map<string, seq<Handler>>

  function ListOf(t: Table, name: string): (handlers: seq<Handler>) { if name in t then t[name] else [] }

  function Added(t: Table, name: string, h: Handler): (now: Table) { t[name := ListOf(t, name) + [h]] }

  /** One delivery made inline by `emit`, or a task it started. */
  datatype How = Intercepted | Observed | Spawned
  datatype Delivery = Delivery(how: How, h: Handler)

  /** The position of the first raising handler, or the number of handlers. */
  function FirstRaise(handlers: seq<Handler>, raises: set<Handler>): (n: nat)
    ensures n <= |handlers| && (n < |handlers| ==> handlers[n] in raises)
    ensures forall k :: 0 <= k < n ==> handlers[k] !in raises
  {
    if handlers == [] || handlers[0] in raises then 0 else 1 + FirstRaise(handlers[1..], raises)
  }

  function AllOf(how: How, handlers: seq<Handler>): (ds: seq<Delivery>) {
    seq(|handlers|, i requires 0 <= i < |handlers| => Delivery(how, handlers[i]))
  }

  // ---- Detached observer tasks ----------------------------------------------------------------------

  /** A task is named by its position in the list of all tasks that were ever started. */
  type Task = nat

  datatype Tables = Tables(observers: Table, blocking: Table, interceptors: Table)

  /** The registrations, the observers of all started tasks, the tasks that the dispatcher tracks, the
      finished ones, and the time of the event loop. */
  datatype Tasks = Tasks(tables: Tables, started: seq<Handler>, pending: set<Task>, done: set<Task>, now: int)

  /** The names of the next `count` tasks. */
  function Fresh(n: nat, count: nat): (ids: set<Task>)
    ensures forall k :: k in ids <==> n <= k < n + count
  {
    if count == 0 then {} else Fresh(n, count - 1) + {n + count - 1}
  }

  function Launched(s: Tasks, handlers: seq<Handler>): (t: Tasks) {
    s.(started := s.started + handlers, pending := s.pending + Fresh(|s.started|, |handlers|))
  }

  /** Every tracked or finished task was started, and a task is tracked until it is finished. */
  ghost predicate Tracked(s: Tasks) {
    && (forall t :: t in s.pending || t in s.done ==> t < |s.started|)
    && (forall t :: 0 <= t < |s.started| ==> t in s.pending || t in s.done)
  }

  /** Every task that any emit ever started is finished. */
  ghost predicate AllDone(s: Tasks) { forall t :: 0 <= t < |s.started| ==> t in s.done }

  /** What can happen while `drain` waits: a task finishes, the done-callback of a finished task runs, some
      code registers a handler or emits (an observer may do both), time passes, or the event loop is ready
      to resume the waiter. A step that is not possible changes nothing. */
  datatype Step =
    | Finish(t: Task)
    | Callback(t: Task)
    | Subscribing(name: string, handler: Handler, block: bool)
    | Intercepting(name: string, handler: Handler)
    | Emitting(name: string, raises: set<Handler>)
    | Tick(d: nat)
    | Wake

  function After(s: Tasks, step: Step): (t: Tasks) {
    match step
    case Finish(t) => if t < |s.started| then s.(done := s.done + {t}) else s
    case Callback(t) => if t in s.done then s.(pending := s.pending - {t}) else s
    case Emitting(name, raises) =>
      var hs := ListOf(s.tables.interceptors, name);
      if FirstRaise(hs, raises) < |hs| then s else Launched(s, ListOf(s.tables.observers, name))
    case Subscribing(name, h, block) =>
      s.(tables := if block then s.tables.(blocking := Added(s.tables.blocking, name, h))
                   else s.tables.(observers := Added(s.tables.observers, name, h)))
    case Intercepting(name, h) => s.(tables := s.tables.(interceptors := Added(s.tables.interceptors, name, h)))
    case Tick(d) => s.(now := s.now + d)
    case Wake => s
  }

  /** What the first `n` steps make of a state. */
  function Follow(s: Tasks, steps: seq<Step>, n: nat): (t: Tasks)
    requires n <= |steps|
  {
    if n == 0 then s else After(Follow(s, steps, n - 1), steps[n - 1])
  }

  /** No step loses track of a task. */
  lemma AfterTracks(s: Tasks, step: Step)
    requires Tracked(s)
    ensures Tracked(After(s, step))
  {
  }

  /** Whatever happens, started tasks stay started in order, finished ones stay finished, and only a task
      that finishes becomes finished: nothing is cancelled. */
  lemma {:induction false} FollowKeeps(s: Tasks, steps: seq<Step>, n: nat)
    requires Tracked(s) && n <= |steps|
    ensures var t := Follow(s, steps, n);
            && Tracked(t) && s.started <= t.started && s.done <= t.done && s.now <= t.now
            && forall k :: k in t.done ==> k in s.done || Finish(k) in steps[..n]
  {
    if n > 0 {
      FollowKeeps(s, steps, n - 1);
      AfterTracks(Follow(s, steps, n - 1), steps[n - 1]);
      AfterKeeps(Follow(s, steps, n - 1), steps[n - 1]);
      assert steps[..n] == steps[..n - 1] + [steps[n - 1]];
    }
  }

  lemma AfterKeeps(s: Tasks, step: Step)
    ensures var t := After(s, step);
            && s.started <= t.started && s.done <= t.done && s.now <= t.now
            && forall k :: k in t.done ==> k in s.done || step == Finish(k)
  {
  }

  /** The test of `drain`: no tracked task is unfinished exactly when no started task is. */
  lemma NothingTracked(s: Tasks, snapshot: set<Task>)
    requires Tracked(s) && snapshot == s.pending - s.done
    ensures snapshot == {} <==> AllDone(s)
  {
    if snapshot == {} {
      forall t | 0 <= t < |s.started| ensures t in s.done {
        assert t !in snapshot;
      }
    } else {
      var t :| t in snapshot;
    }
  }

  /** Waiting for the tasks pending at one moment is not enough: when the one observer is finished, the
      task that it started by emitting is still running. */
  lemma OneSnapshotIsNotEnough()
    ensures var s := Tasks(Tables(map["a" := [7]], map[], map[]), [7], {0}, {}, 0);
            var t := Follow(s, [Emitting("a", {}), Finish(0), Callback(0), Wake], 4);
            Tracked(s) && s.pending <= t.done && !AllDone(t)
  {
    var s := Tasks(Tables(map["a" := [7]], map[], map[]), [7], {0}, {}, 0);
    var steps := [Emitting("a", {}), Finish(0), Callback(0), Wake];
    var a := Follow(s, steps, 1);
    assert a.started == [7, 7] && a.done == {};
    var b := Follow(s, steps, 2);
    assert b.started == [7, 7] && b.done == {0};
    assert Follow(s, steps, 3).started == [7, 7] && Follow(s, steps, 3).done == {0};
    assert Follow(s, steps, 4) == Follow(s, steps, 3);
    assert 1 !in b.done;
  }

  // ---- The dispatcher -------------------------------------------------------------------------------

  class EventDispatcher {
    var observers: Table
    var blocking: Table
    var interceptors: Table
    var registered: set<string>
    var generation: nat
    var started: seq<Handler>
    var pending: set<Task>
    var done: set<Task>
    var now: int

    ghost function State(): (s: Tasks)
      reads this`observers, this`blocking, this`interceptors, this`started, this`pending, this`done, this`now
    {
      Tasks(Tables(observers, blocking, interceptors), started, pending, done, now)
    }

    /** Some handler of any kind is registered for the name. */
    ghost predicate Listened(name: string)
      reads this`observers, this`blocking, this`interceptors
    {
      ListOf(observers, name) != [] || ListOf(blocking, name) != [] || ListOf(interceptors, name) != []
    }

    ghost predicate Valid()
      reads this`observers, this`blocking, this`interceptors, this`registered
    {
      forall name :: name in registered <==> Listened(name)
    }

    constructor ()
      ensures Valid() && generation == 0 && forall name :: !Listened(name)
      ensures Tracked(State()) && started == []
    {
      observers, blocking, interceptors, registered, generation := map[], map[], map[], {}, 0;
      started, pending, done, now := [], {}, {}, 0;
    }

    method On(name: string, handler: Handler, block: bool)
      requires Valid()
      modifies this`observers, this`blocking, this`registered, this`generation
      ensures Valid() && generation == old(generation) + 1
      ensures observers == (if block then old(observers) else Added(old(observers), name, handler))
      ensures blocking == (if block then Added(old(blocking), name, handler) else old(blocking))
      ensures interceptors == old(interceptors)
      ensures forall n :: Listened(n) <==> old(Listened(n)) || n == name
    {
      if block {
        blocking := Added(blocking, name, handler);
      } else {
        observers := Added(observers, name, handler);
      }
      registered := registered + {name};
      generation := generation + 1;
    }

    method Intercept(name: string, handler: Handler)
      requires Valid()
      modifies this`interceptors, this`registered, this`generation
      ensures Valid() && generation == old(generation) + 1
      ensures interceptors == Added(old(interceptors), name, handler)
      ensures observers == old(observers) && blocking == old(blocking)
      ensures forall n :: Listened(n) <==> old(Listened(n)) || n == name
    {
      interceptors := Added(interceptors, name, handler);
      registered := registered + {name};
      generation := generation + 1;
    }

    /** `emit`: a raising interceptor ends it; a raising observer does not. Each detached observer becomes a
        task that is tracked from its start. */
    method Emit(name: string, raises: set<Handler>) returns (out: seq<Delivery>, raised: bool)
      modifies this`started, this`pending
      ensures var hs := ListOf(interceptors, name);
              var n := FirstRaise(hs, raises);
              && (raised <==> n < |hs|)
              && out == if raised then AllOf(Intercepted, hs[..n + 1])
                        else AllOf(Intercepted, hs) + AllOf(Observed, ListOf(blocking, name))
                                                    + AllOf(Spawned, ListOf(observers, name))
      ensures State() == if raised then old(State()) else Launched(old(State()), ListOf(observers, name))
      ensures old(Tracked(State())) ==> Tracked(State())
    {
      out, raised := RunInterceptors(ListOf(interceptors, name), raises);
      if !raised {
        out := Deliver(out, Observed, ListOf(blocking, name));
        out := Deliver(out, Spawned, ListOf(observers, name));
        Launch(ListOf(observers, name));
      }
    }

    /** `create_task`, `_pending_tasks.add`, and the done-callback, for each observer. */
    method Launch(hs: seq<Handler>)
      modifies this`started, this`pending
      ensures State() == Launched(old(State()), hs)
    {
      ghost var n := |started|;
      for i := 0 to |hs|
        invariant started == old(started) + hs[..i]
        invariant pending == old(pending) + Fresh(n, i)
      {
        pending := pending + {|started|};
        started := started + [hs[i]];
      }
      assert hs[..|hs|] == hs;
    }

    /** One step of the event loop. */
    method Happen(step: Step)
      requires Valid()
      modifies this
      ensures Valid() && State() == After(old(State()), step)
    {
      match step {
        case Finish(t) =>
          if t < |started| {
            done := done + {t};
          }
        case Callback(t) =>
          if t in done {
            pending := pending - {t};
          }
        case Emitting(name, raises) =>
          var _, _ := Emit(name, raises);
        case Subscribing(name, handler, block) =>
          On(name, handler, block);
        case Intercepting(name, handler) =>
          Intercept(name, handler);
        case Tick(d) =>
          now := now + d;
        case Wake =>
      }
    }

    /** `asyncio.wait(snapshot, timeout=deadline - now)` over a schedule: it may resume once all tasks of the
        snapshot are finished or the time is up. A schedule that ends first leaves it waiting. */
    method Wait(snapshot: set<Task>, deadline: int, steps: seq<Step>, from: nat, ghost origin: Tasks)
      returns (resumed: bool, i: nat)
      requires Valid() && from <= |steps| && snapshot <= pending && Tracked(State())
      requires State() == Follow(origin, steps, from) && NoQuietWake(origin, steps, from)
      modifies this
      ensures Valid() && from <= i <= |steps| && Tracked(State()) && State() == Follow(origin, steps, i)
      ensures resumed ==> from < i && steps[i - 1].Wake? && (snapshot <= done || now >= deadline)
      ensures if resumed then NoQuietWake(origin, steps, i - 1) else i == |steps| && NoQuietWake(origin, steps, i)
    {
      i := from;
      while i < |steps|
        invariant Valid() && from <= i <= |steps| && Tracked(State()) && (forall t :: t in snapshot ==> t < |started|)
        invariant State() == Follow(origin, steps, i) && NoQuietWake(origin, steps, i)
      {
        AfterTracks(State(), steps[i]);
        Happen(steps[i]);
        i := i + 1;
        if steps[i - 1].Wake? && (snapshot <= done || now >= deadline) {
          return true, i;
        }
        assert steps[i - 1].Wake? ==> !AllDone(State());
      }
      resumed := false;
    }

    /** `drain`. It answers True only when every task that any emit ever started is finished, at the first
        wake-up that finds it so, and False only when some task is not and the time is up. All that
        changes meanwhile is what the schedule's steps change. `None`: it is still waiting. */
    method Drain(timeout: int, steps: seq<Step>) returns (quiet: Option<bool>, used: nat)
      requires Valid() && Tracked(State())
      modifies this
      ensures Valid() && used <= |steps| && Tracked(State()) && State() == Follow(old(State()), steps, used)
      ensures quiet.Some? ==> (quiet.value <==> AllDone(State()))
      ensures quiet == Some(false) ==> now >= old(now) + timeout
      ensures quiet.None? ==> used == |steps| && NoQuietWake(old(State()), steps, used)
      ensures quiet.Some? && used > 0 ==> NoQuietWake(old(State()), steps, used - 1)
      ensures old(AllDone(State())) ==> quiet == Some(true) && used == 0
    {
      ghost var origin := State();
      var deadline := now + timeout;
      used := 0;
      while true
        invariant Valid() && used <= |steps| && Tracked(State()) && State() == Follow(origin, steps, used)
        invariant NoQuietWake(origin, steps, if used > 0 then used - 1 else 0)
        invariant used > 0 ==> !AllDone(origin)
        decreases |steps| - used
      {
        var snapshot := pending - done;
        NothingTracked(State(), snapshot);
        if snapshot == {} {
          return Some(true), used;
        }
        if deadline - now <= 0 {
          return Some(false), used;
        }
        var resumed;
        resumed, used := Wait(snapshot, deadline, steps, used, origin);
        if !resumed {
          return None, used;
        }
      }
    }
  }

  /** No wake-up among the first `n` steps finds every task finished. */
  ghost predicate NoQuietWake(s: Tasks, steps: seq<Step>, n: nat)
    requires n <= |steps|
  {
    forall k :: 0 <= k < n && steps[k].Wake? ==> !AllDone(Follow(s, steps, k + 1))
  }

  method RunInterceptors(hs: seq<Handler>, raises: set<Handler>) returns (out: seq<Delivery>, raised: bool)
    ensures var n := FirstRaise(hs, raises);
            (raised <==> n < |hs|) && out == AllOf(Intercepted, if raised then hs[..n + 1] else hs)
  {
    out, raised := [], false;
    for i := 0 to |hs|
      invariant out == AllOf(Intercepted, hs[..i])
      invariant i <= FirstRaise(hs, raises)
    {
      out := out + [Delivery(Intercepted, hs[i])];
      if hs[i] in raises {
        return out, true;
      }
    }
    assert hs[..|hs|] == hs;
  }

  method Deliver(before: seq<Delivery>, how: How, hs: seq<Handler>) returns (out: seq<Delivery>)
    ensures out == before + AllOf(how, hs)
  {
    out := before;
    for i := 0 to |hs|
      invariant out == before + AllOf(how, hs[..i])
    {
      out := out + [Delivery(how, hs[i])];
    }
    assert hs[..|hs|] == hs;
  }

  // ---- Cached verdicts ------------------------------------------------------------------------------

  datatype Verdict = Verdict(gen: int, val: bool)

  /** The three hot-path predicates, each with its cached generation and answer. */
  class EventAggregator {
    const dispatcher: EventDispatcher
    var verdicts: map<string, Verdict>

    ghost predicate Valid()
      reads this, dispatcher
    {
      && dispatcher.Valid()
      && verdicts.Keys == {"request_completed", "request_disconnected", "websocket_message"}
      && forall n :: n in verdicts ==>
           && verdicts[n].gen <= dispatcher.generation
           && (verdicts[n].gen == dispatcher.generation ==> (verdicts[n].val <==> dispatcher.Listened(n)))
    }

    constructor (dispatcher: EventDispatcher)
      requires dispatcher.Valid()
      ensures Valid() && this.dispatcher == dispatcher
    {
      this.dispatcher := dispatcher;
      var none := Verdict(-1, false);
      verdicts := map["request_completed" := none, "request_disconnected" := none, "websocket_message" := none];
    }

    /** The cached verdict is the current one. */
    method HasListeners(name: string) returns (yes: bool)
      requires Valid() && name in verdicts
      modifies this
      ensures Valid() && (yes <==> dispatcher.Listened(name))
    {
      var gen := dispatcher.generation;
      if gen != verdicts[name].gen {
        verdicts := verdicts[name := Verdict(gen, name in dispatcher.registered)];
      }
      yes := verdicts[name].val;
    }
  }

  // ---- Whole histories ------------------------------------------------------------------------------

  datatype OpKind = AsObserver | AsBlocking | AsInterceptor

  datatype Op =
    | Register(name: string, handler: Handler, kind: OpKind)
    | Ask(name: string)
    | Emission(name: string, raises: set<Handler>)

  datatype Reply = Noted | Answer(yes: bool) | Delivered(out: seq<Delivery>)

  /** The handlers that the first `n` operations register for a name with a kind, in order. */
  function HandlersIn(ops: seq<Op>, n: nat, name: string, kind: OpKind): (hs: seq<Handler>)
    requires n <= |ops|
  {
    if n == 0 then []
    else
      var op, before := ops[n - 1], HandlersIn(ops, n - 1, name, kind);
      if op.Register? && op.name == name && op.kind == kind then before + [op.handler] else before
  }

  /** The deliveries of one emit: the interceptors up to the first that raises, and if none does, all of
      them, then the blocking observers, then a task for each detached observer. */
  ghost predicate Delivers(out: seq<Delivery>, hs: seq<Handler>, bs: seq<Handler>, os: seq<Handler>, raises: set<Handler>) {
    if Raises(hs, raises) then
      && 0 < |out| <= |hs| && hs[|out| - 1] in raises
      && forall i :: 0 <= i < |out| ==> out[i] == Delivery(Intercepted, hs[i]) && (i < |out| - 1 ==> hs[i] !in raises)
    else
      && |out| == |hs| + |bs| + |os|
      && (forall i :: 0 <= i < |hs| ==> out[i] == Delivery(Intercepted, hs[i]))
      && (forall i :: |hs| <= i < |hs| + |bs| ==> out[i] == Delivery(Observed, bs[i - |hs|]))
      && (forall i :: |hs| + |bs| <= i < |out| ==> out[i] == Delivery(Spawned, os[i - |hs| - |bs|]))
  }

  /** The reply to the operation at `i`, read off the operations before it. */
  ghost predicate ReplyRight(ops: seq<Op>, i: nat, reply: Reply)
    requires i < |ops|
  {
    match ops[i]
    case Register(_, _, _) => reply.Noted?
    case Ask(name) => reply.Answer? && (reply.yes <==> exists j :: 0 <= j < i && ops[j].Register? && ops[j].name == name)
    case Emission(name, raises) =>
      reply.Delivered? && Delivers(reply.out, HandlersIn(ops, i, name, AsInterceptor), HandlersIn(ops, i, name, AsBlocking),
                                   HandlersIn(ops, i, name, AsObserver), raises)
  }

  ghost predicate RepliesRight(ops: seq<Op>, replies: seq<Reply>) {
    |replies| <= |ops| && forall i :: 0 <= i < |replies| ==> ReplyRight(ops, i, replies[i])
  }

  lemma OneMoreRight(ops: seq<Op>, replies: seq<Reply>, reply: Reply)
    requires |replies| < |ops| && RepliesRight(ops, replies) && ReplyRight(ops, |replies|, reply)
    ensures RepliesRight(ops, replies + [reply])
  {
  }

  predicate Raises(hs: seq<Handler>, raises: set<Handler>) { exists h :: h in hs && h in raises }

  /** The tasks that the operation at `i` starts, by their observers. */
  ghost function LaunchedBy(ops: seq<Op>, i: nat): (hs: seq<Handler>)
    requires i < |ops|
  {
    var op := ops[i];
    if op.Emission? && !Raises(HandlersIn(ops, i, op.name, AsInterceptor), op.raises)
    then HandlersIn(ops, i, op.name, AsObserver) else []
  }

  ghost function StartedIn(ops: seq<Op>, n: nat): (hs: seq<Handler>)
    requires n <= |ops|
  {
    if n == 0 then [] else StartedIn(ops, n - 1) + LaunchedBy(ops, n - 1)
  }

  /** The tables hold what the first `n` operations registered. */
  ghost predicate HoldsFor(t: Tables, ops: seq<Op>, n: nat, name: string)
    requires n <= |ops|
  {
    && ListOf(t.observers, name) == HandlersIn(ops, n, name, AsObserver)
    && ListOf(t.blocking, name) == HandlersIn(ops, n, name, AsBlocking)
    && ListOf(t.interceptors, name) == HandlersIn(ops, n, name, AsInterceptor)
  }

  ghost predicate Holds(t: Tables, ops: seq<Op>, n: nat)
    requires n <= |ops|
  {
    forall name :: HoldsFor(t, ops, n, name)
  }

  /** What a registration makes of the tables. */
  function Registered(t: Tables, name: string, h: Handler, kind: OpKind): (now: Tables) {
    match kind
    case AsObserver => t.(observers := Added(t.observers, name, h))
    case AsBlocking => t.(blocking := Added(t.blocking, name, h))
    case AsInterceptor => t.(interceptors := Added(t.interceptors, name, h))
  }

  lemma RegisteredHolds(t: Tables, ops: seq<Op>, i: nat)
    requires i < |ops| && ops[i].Register? && Holds(t, ops, i)
    ensures Holds(Registered(t, ops[i].name, ops[i].handler, ops[i].kind), ops, i + 1)
  {
    var op, n := ops[i], i + 1;
    var now := Registered(t, op.name, op.handler, op.kind);
    forall name ensures HoldsFor(now, ops, n, name) {
      assert HoldsFor(t, ops, i, name);
      RegisteredFor(t, ops, i, name);
    }
  }

  lemma RegisteredFor(t: Tables, ops: seq<Op>, i: nat, name: string)
    requires i < |ops| && ops[i].Register? && HoldsFor(t, ops, i, name)
    ensures HoldsFor(Registered(t, ops[i].name, ops[i].handler, ops[i].kind), ops, i + 1, name)
  {
    var op := ops[i];
    AddedLists(t.observers, op.name, op.handler, name);
    AddedLists(t.blocking, op.name, op.handler, name);
    AddedLists(t.interceptors, op.name, op.handler, name);
  }

  lemma OtherHolds(t: Tables, ops: seq<Op>, i: nat)
    requires i < |ops| && !ops[i].Register? && Holds(t, ops, i)
    ensures Holds(t, ops, i + 1)
  {
    var n := i + 1;
    forall name ensures HoldsFor(t, ops, n, name) {
      assert HoldsFor(t, ops, i, name);
    }
  }

  lemma AddedLists(t: Table, name: string, h: Handler, n: string)
    ensures ListOf(Added(t, name, h), n) == if n == name then ListOf(t, n) + [h] else ListOf(t, n)
  {
  }

  /** Some handler of any kind exactly when some operation registers the name. */
  lemma {:induction false} HandlersFrom(ops: seq<Op>, n: nat, name: string)
    requires n <= |ops|
    ensures (|| HandlersIn(ops, n, name, AsObserver) != [] || HandlersIn(ops, n, name, AsBlocking) != []
             || HandlersIn(ops, n, name, AsInterceptor) != []) <==>
            exists j :: 0 <= j < n && ops[j].Register? && ops[j].name == name
  {
    if n > 0 {
      HandlersFrom(ops, n - 1, name);
    }
  }

  /** What `emit` delivers is what the lists say. */
  lemma EmitDelivers(out: seq<Delivery>, hs: seq<Handler>, bs: seq<Handler>, os: seq<Handler>, raises: set<Handler>)
    requires var n := FirstRaise(hs, raises);
             out == if n < |hs| then AllOf(Intercepted, hs[..n + 1])
                    else AllOf(Intercepted, hs) + AllOf(Observed, bs) + AllOf(Spawned, os)
    ensures Delivers(out, hs, bs, os, raises)
    ensures FirstRaise(hs, raises) < |hs| <==> Raises(hs, raises)
  {
    var n := FirstRaise(hs, raises);
    if n < |hs| {
      assert hs[n] in hs;
    } else {
      assert forall h :: h in hs ==> h !in raises;
    }
  }

  /** Over any history of registrations, questions and emits: a question is answered by the registrations
      before it, and an emit reaches exactly the handlers registered before it, in order, and starts a
      tracked task for each of its detached observers. */
  method RunOps(agg: EventAggregator, ops: seq<Op>) returns (replies: seq<Reply>)
    requires agg.Valid() && (forall n :: !agg.dispatcher.Listened(n))
    requires forall op :: op in ops && op.Ask? ==> op.name in agg.verdicts
    requires Tracked(agg.dispatcher.State())
    modifies agg, agg.dispatcher
    ensures |replies| == |ops| && RepliesRight(ops, replies)
    ensures agg.Valid() && Holds(agg.dispatcher.State().tables, ops, |ops|) && Tracked(agg.dispatcher.State())
    ensures agg.dispatcher.started == old(agg.dispatcher.started) + StartedIn(ops, |ops|)
    ensures agg.dispatcher.done == old(agg.dispatcher.done)
  {
    replies := [];
    var d := agg.dispatcher;
    NothingHeld(d, ops);
    for i := 0 to |ops|
      invariant agg.Valid() && Holds(d.State().tables, ops, i) && Tracked(d.State()) && d.done == old(d.done)
      invariant |replies| == i && RepliesRight(ops, replies)
      invariant d.started == old(d.started) + StartedIn(ops, i)
    {
      assert ops[i] in ops;
      var reply := Perform(agg, ops, i);
      OneMoreRight(ops, replies, reply);
      replies := replies + [reply];
      Reassociate(old(d.started), StartedIn(ops, i), LaunchedBy(ops, i));
    }
  }

  lemma Reassociate<T>(a: seq<T>, b: seq<T>, c: seq<T>)
    ensures a + b + c == a + (b + c)
  {
  }

  lemma NothingHeld(d: EventDispatcher, ops: seq<Op>)
    requires forall n :: !d.Listened(n)
    ensures Holds(d.State().tables, ops, 0)
  {
    forall name ensures HoldsFor(d.State().tables, ops, 0, name) {
      assert !d.Listened(name);
    }
  }

  /** One operation of a history. */
  method Perform(agg: EventAggregator, ops: seq<Op>, i: nat) returns (reply: Reply)
    requires i < |ops| && agg.Valid() && (ops[i].Ask? ==> ops[i].name in agg.verdicts)
    requires Holds(agg.dispatcher.State().tables, ops, i) && Tracked(agg.dispatcher.State())
    modifies agg, agg.dispatcher
    ensures agg.Valid() && Holds(agg.dispatcher.State().tables, ops, i + 1) && Tracked(agg.dispatcher.State())
    ensures ReplyRight(ops, i, reply)
    ensures agg.dispatcher.started == old(agg.dispatcher.started) + LaunchedBy(ops, i)
    ensures agg.dispatcher.done == old(agg.dispatcher.done)
  {
    var d := agg.dispatcher;
    match ops[i] {
      case Register(name, handler, kind) =>
        RegisteredHolds(d.State().tables, ops, i);
        Registration(agg, name, handler, kind);
        reply := Noted;
      case Ask(name) =>
        OtherHolds(d.State().tables, ops, i);
        assert HoldsFor(d.State().tables, ops, i, name);
        HandlersFrom(ops, i, name);
        var yes := agg.HasListeners(name);
        reply := Answer(yes);
      case Emission(name, raises) =>
        OtherHolds(d.State().tables, ops, i);
        assert HoldsFor(d.State().tables, ops, i, name);
        var out := Announce(d, name, raises);
        reply := Delivered(out);
    }
  }

  method Announce(d: EventDispatcher, name: string, raises: set<Handler>) returns (out: seq<Delivery>)
    requires Tracked(d.State())
    modifies d`started, d`pending
    ensures Tracked(d.State())
    ensures Delivers(out, ListOf(d.interceptors, name), ListOf(d.blocking, name), ListOf(d.observers, name), raises)
    ensures d.started == old(d.started) + if Raises(ListOf(d.interceptors, name), raises) then [] else ListOf(d.observers, name)
  {
    var raised;
    out, raised := d.Emit(name, raises);
    EmitDelivers(out, ListOf(d.interceptors, name), ListOf(d.blocking, name), ListOf(d.observers, name), raises);
  }

  method Registration(agg: EventAggregator, name: string, handler: Handler, kind: OpKind)
    requires agg.Valid()
    modifies agg.dispatcher`observers, agg.dispatcher`blocking, agg.dispatcher`interceptors
    modifies agg.dispatcher`registered, agg.dispatcher`generation
    ensures agg.Valid() && agg.dispatcher.State().tables == Registered(old(agg.dispatcher.State().tables), name, handler, kind)
  {
    if kind.AsInterceptor? {
      agg.dispatcher.Intercept(name, handler);
    } else {
      agg.dispatcher.On(name, handler, kind.AsBlocking?);
    }
  }
}
