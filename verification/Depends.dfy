/** Per-request dependency injection: the providers of a handler's `Depends` parameters are resolved
    in order inside an exit stack, the handler runs and its result is sent inside that stack, and the
    stack then releases the generator providers last in, first out. */
module Depends {
  import opened Options

  datatype Kind = AsyncGen | AsyncFn | SyncFn

  /** One `Depends` parameter. */
  datatype Dep = Dep(provider: nat, useCache: bool)

  /** What can be observed. An instance is named by the parameter position that produced it. */
  datatype Event = Acquire(inst: nat) | Call(inst: nat) | RunHandler | Respond | Release(inst: nat)

  /** How the handler and the sending of its result end. */
  datatype Ending = HandlerRaises | SendRaises | Clean

  type Kinds = nat -> Kind
  type Fails = nat -> bool

  // ---- What the plan promises ---------------------------------------------------------------------

  /** The first position of a parameter declaration. */
  function FirstOf(plan: seq<Dep>, d: Dep): (j: nat)
    requires d in plan
    ensures j < |plan| && plan[j] == d && d !in plan[..j]
  {
    if plan[0] == d then 0
    else
      var j := 1 + FirstOf(plan[1..], d);
      assert plan[..j] == [plan[0]] + plan[1..][..j - 1];
      j
  }

  /** A cached parameter shares the value of the first cached parameter of the same provider. */
  function Source(plan: seq<Dep>, i: nat): (j: nat)
    requires i < |plan|
  {
    if plan[i].useCache then FirstOf(plan, plan[i]) else i
  }

  /** The provider of position `i` is really invoked. */
  predicate Invoked(plan: seq<Dep>, i: nat)
    requires i < |plan|
  {
    Source(plan, i) == i
  }

  /** Which of the first `n` positions acquire a generator instance. */
  function Acquired(plan: seq<Dep>, kinds: Kinds, n: nat): (insts: seq<nat>)
    requires n <= |plan|
  {
    if n == 0 then []
    else Acquired(plan, kinds, n - 1) +
         (if kinds(plan[n - 1].provider).AsyncGen? && Invoked(plan, n - 1) then [n - 1] else [])
  }

  /** Which of the first `n` positions invoke their provider. */
  function Invocations(plan: seq<Dep>, n: nat): (insts: seq<nat>)
    requires n <= |plan|
  {
    if n == 0 then [] else Invocations(plan, n - 1) + (if Invoked(plan, n - 1) then [n - 1] else [])
  }

  /** The values of the first `n` parameters, each named by its source. */
  function Sources(plan: seq<Dep>, n: nat): (values: seq<nat>)
    requires n <= |plan|
  {
    if n == 0 then [] else Sources(plan, n - 1) + [Source(plan, n - 1)]
  }

  /** No provider invoked for the first `n` parameters fails. */
  predicate Healthy(plan: seq<Dep>, fails: Fails, n: nat)
    requires n <= |plan|
  {
    n == 0 || (Healthy(plan, fails, n - 1) && !(Invoked(plan, n - 1) && fails(n - 1)))
  }

  lemma {:induction false} HealthyIff(plan: seq<Dep>, fails: Fails, n: nat)
    requires n <= |plan|
    ensures Healthy(plan, fails, n) <==> forall i :: 0 <= i < n ==> !(Invoked(plan, i) && fails(i))
  {
    if n > 0 {
      HealthyIff(plan, fails, n - 1);
    }
  }

  lemma {:induction false} SourcesAt(plan: seq<Dep>, n: nat)
    requires n <= |plan|
    ensures |Sources(plan, n)| == n && forall i :: 0 <= i < n ==> Sources(plan, n)[i] == Source(plan, i)
  {
    if n > 0 {
      SourcesAt(plan, n - 1);
    }
  }

  /** Two parameters get the same instance exactly when both are cached and of one provider, and then it is
      the instance of the first of them; any other parameter has its own. */
  lemma SourcesShare(plan: seq<Dep>, n: nat, i: nat, j: nat)
    requires n <= |plan| && i < j < n
    ensures |Sources(plan, n)| == n
    ensures Sources(plan, n)[i] == Sources(plan, n)[j] <==> plan[i].useCache && plan[j].useCache && plan[i].provider == plan[j].provider
    ensures Sources(plan, n)[j] == j <==> !plan[j].useCache || plan[j] !in plan[..j]
  {
    SourcesAt(plan, n);
    InvokedIff(plan, j);
    SourceHas(plan, i);
    SourceHas(plan, j);
  }

  lemma SourceHas(plan: seq<Dep>, i: nat)
    requires i < |plan|
    ensures Source(plan, i) <= i && plan[Source(plan, i)] == plan[i]
  {
    if plan[i].useCache {
      var j := FirstOf(plan, plan[i]);
      assert forall k :: 0 <= k < j ==> plan[..j][k] == plan[k];
    }
  }

  lemma InvokedIff(plan: seq<Dep>, i: nat)
    requires i < |plan|
    ensures Invoked(plan, i) <==> !plan[i].useCache || plan[i] !in plan[..i]
  {
    if plan[i].useCache {
      var j := FirstOf(plan, plan[i]);
      assert forall k :: 0 <= k < j ==> plan[k] == plan[..j][k] != plan[i];
      assert j < i ==> plan[..i][j] == plan[i];
    }
  }

  /** The distinct generator providers among the cached parameters. */
  function CachedGens(plan: seq<Dep>, kinds: Kinds, n: nat): (providers: set<nat>)
    requires n <= |plan|
  {
    if n == 0 then {}
    else
      var d := plan[n - 1];
      CachedGens(plan, kinds, n - 1) + (if d.useCache && kinds(d.provider).AsyncGen? then {d.provider} else {})
  }

  lemma {:induction false} CachedGensHas(plan: seq<Dep>, kinds: Kinds, n: nat, p: nat)
    requires n <= |plan|
    ensures p in CachedGens(plan, kinds, n) <==> Dep(p, true) in plan[..n] && kinds(p).AsyncGen?
  {
    if n > 0 {
      CachedGensHas(plan, kinds, n - 1, p);
      assert plan[..n] == plan[..n - 1] + [plan[n - 1]];
    }
  }

  function UncachedGens(plan: seq<Dep>, kinds: Kinds, n: nat): (count: nat)
    requires n <= |plan|
  {
    if n == 0 then 0
    else UncachedGens(plan, kinds, n - 1) +
         (if kinds(plan[n - 1].provider).AsyncGen? && !plan[n - 1].useCache then 1 else 0)
  }

  lemma InvokedCachedGen(plan: seq<Dep>, kinds: Kinds, i: nat)
    requires i < |plan| && plan[i].useCache && kinds(plan[i].provider).AsyncGen?
    ensures Invoked(plan, i) <==> plan[i].provider !in CachedGens(plan, kinds, i)
  {
    InvokedIff(plan, i);
    CachedGensHas(plan, kinds, i, plan[i].provider);
    assert plan[i] == Dep(plan[i].provider, true);
  }

  /** What one more parameter adds: an uncached generator always acquires, a cached one only as the first
      of its provider. */
  lemma AcquiredStep(plan: seq<Dep>, kinds: Kinds, i: nat)
    requires i < |plan|
    ensures var d, cached := plan[i], CachedGens(plan, kinds, i);
            |Acquired(plan, kinds, i + 1)| == |Acquired(plan, kinds, i)| +
              (if kinds(d.provider).AsyncGen? && !(d.useCache && d.provider in cached) then 1 else 0)
  {
    var d := plan[i];
    if d.useCache && kinds(d.provider).AsyncGen? {
      InvokedCachedGen(plan, kinds, i);
    }
  }

  lemma CachedStep(plan: seq<Dep>, kinds: Kinds, i: nat)
    requires i < |plan|
    ensures var d, cached := plan[i], CachedGens(plan, kinds, i);
            |CachedGens(plan, kinds, i + 1)| == |cached| +
              (if d.useCache && kinds(d.provider).AsyncGen? && d.provider !in cached then 1 else 0)
  {
    var d, cached := plan[i], CachedGens(plan, kinds, i);
    assert cached + {} == cached && (d.provider in cached ==> cached + {d.provider} == cached);
  }

  /** As many acquisitions as distinct cached generator providers plus uncached generator parameters. */
  lemma {:induction false} AcquiredCount(plan: seq<Dep>, kinds: Kinds, n: nat)
    requires n <= |plan|
    ensures |Acquired(plan, kinds, n)| == |CachedGens(plan, kinds, n)| + UncachedGens(plan, kinds, n)
  {
    if n > 0 {
      AcquiredCount(plan, kinds, n - 1);
      AcquiredStep(plan, kinds, n - 1);
      CachedStep(plan, kinds, n - 1);
    }
  }

  ghost predicate Distinct(s: seq<nat>) { forall i, j :: 0 <= i < j < |s| ==> s[i] != s[j] }

  /** Each position acquires at most once. */
  lemma {:induction false} AcquiredOnce(plan: seq<Dep>, kinds: Kinds, n: nat)
    requires n <= |plan|
    ensures Distinct(Acquired(plan, kinds, n))
    ensures forall k :: 0 <= k < |Acquired(plan, kinds, n)| ==> Acquired(plan, kinds, n)[k] < n
  {
    if n > 0 {
      AcquiredOnce(plan, kinds, n - 1);
    }
  }

  // ---- What a trace shows -------------------------------------------------------------------------

  function AcquiresIn(trace: seq<Event>): (insts: seq<nat>) {
    if trace == [] then []
    else AcquiresIn(trace[..|trace| - 1]) + (if trace[|trace| - 1].Acquire? then [trace[|trace| - 1].inst] else [])
  }

  /** The positions whose provider was invoked, in order. */
  function InvocationsIn(trace: seq<Event>): (insts: seq<nat>) {
    if trace == [] then []
    else
      var e := trace[|trace| - 1];
      InvocationsIn(trace[..|trace| - 1]) + (if e.Acquire? || e.Call? then [e.inst] else [])
  }

  function ReleasesIn(trace: seq<Event>): (insts: seq<nat>) {
    if trace == [] then []
    else ReleasesIn(trace[..|trace| - 1]) + (if trace[|trace| - 1].Release? then [trace[|trace| - 1].inst] else [])
  }

  /** What one more event adds. */
  lemma TraceSnoc(trace: seq<Event>, e: Event)
    ensures AcquiresIn(trace + [e]) == AcquiresIn(trace) + (if e.Acquire? then [e.inst] else [])
    ensures InvocationsIn(trace + [e]) == InvocationsIn(trace) + (if e.Acquire? || e.Call? then [e.inst] else [])
    ensures ReleasesIn(trace + [e]) == ReleasesIn(trace) + (if e.Release? then [e.inst] else [])
  {
    assert (trace + [e])[..|trace|] == trace;
  }

  lemma Reassociate<T>(a: seq<T>, b: seq<T>, c: seq<T>)
    ensures a + b + c == a + (b + c)
  {
  }

  function Reverse<T>(s: seq<T>): (r: seq<T>) {
    if s == [] then [] else [s[|s| - 1]] + Reverse(s[..|s| - 1])
  }

  lemma {:induction false} ReverseAt<T>(s: seq<T>, k: nat)
    requires k < |s|
    ensures |Reverse(s)| == |s| && Reverse(s)[k] == s[|s| - 1 - k]
  {
    if |s| > 1 {
      ReverseAt(s[..|s| - 1], if k > 0 then k - 1 else 0);
    }
  }

  lemma ReverseDistinct(s: seq<nat>)
    requires Distinct(s)
    ensures Distinct(Reverse(s))
  {
    var r := Reverse(s);
    forall i, j | 0 <= i < j < |r| ensures r[i] != r[j] {
      assert s != [];
      ReverseAt(s, 0);
      ReverseAt(s, i);
      ReverseAt(s, j);
    }
  }

  // ---- The request ----------------------------------------------------------------------------------

  /** The cache holds the first position of every cached provider met so far. */
  ghost predicate CacheOk(plan: seq<Dep>, cache: map<nat, nat>, i: nat)
    requires i <= |plan|
  {
    && (forall p :: p in cache <==> Dep(p, true) in plan[..i])
    && (forall p :: p in cache ==> Dep(p, true) in plan && cache[p] == FirstOf(plan, Dep(p, true)))
  }

  lemma CacheStep(plan: seq<Dep>, cache: map<nat, nat>, i: nat)
    requires i < |plan| && CacheOk(plan, cache, i)
    ensures var d := plan[i];
            && (Invoked(plan, i) <==> !(d.useCache && d.provider in cache))
            && (d.useCache && d.provider in cache ==> cache[d.provider] == Source(plan, i))
            && CacheOk(plan, if d.useCache && d.provider !in cache then cache[d.provider := i] else cache, i + 1)
  {
    InvokedIff(plan, i);
    assert plan[..i + 1] == plan[..i] + [plan[i]];
    assert plan[i].useCache ==> plan[i] == Dep(plan[i].provider, true);
  }

  class Request {
    const kinds: Kinds
    const fails: Fails
    var cache: map<nat, nat>
    var stack: seq<nat>
    var trace: seq<Event>

    constructor (kinds: Kinds, fails: Fails)
      ensures this.kinds == kinds && this.fails == fails && cache == map[] && stack == [] && trace == []
    {
      this.kinds, this.fails := kinds, fails;
      cache, stack, trace := map[], [], [];
    }

    /** The state after the first `i` parameters were resolved. */
    ghost predicate Resolved(plan: seq<Dep>, i: nat)
      requires i <= |plan|
      reads this
    {
      && CacheOk(plan, cache, i)
      && stack == Acquired(plan, kinds, i)
      && AcquiresIn(trace) == stack && ReleasesIn(trace) == [] && InvocationsIn(trace) == Invocations(plan, i)
    }

    /** `_resolve_depends`. */
    method Resolve(dep: Dep, at: nat, ghost plan: seq<Dep>) returns (value: Option<nat>)
      requires at < |plan| && plan[at] == dep && Resolved(plan, at)
      modifies this`cache, this`stack, this`trace
      ensures value.Some? ==> Resolved(plan, at + 1) && value.value == Source(plan, at)
      ensures value.None? <==> Invoked(plan, at) && fails(at)
      ensures value.None? ==> stack == old(stack) && trace == old(trace)
      ensures Quiet(old(trace)) ==> Quiet(trace)
    {
      CacheStep(plan, cache, at);
      if dep.useCache && dep.provider in cache {
        return Some(cache[dep.provider]);
      }
      if fails(at) {
        return None;
      }
      if kinds(dep.provider).AsyncGen? {
        TraceSnoc(trace, Acquire(at));
        stack := stack + [at];
        trace := trace + [Acquire(at)];
      } else {
        TraceSnoc(trace, Call(at));
        trace := trace + [Call(at)];
      }
      if dep.useCache {
        cache := cache[dep.provider := at];
      }
      value := Some(at);
    }

    /** Leave the exit stack: the last acquired instance goes first. */
    method Unwind() returns (ghost tail: seq<Event>)
      modifies this`stack, this`trace
      ensures stack == [] && trace == old(trace) + tail && AllReleases(tail)
      ensures AcquiresIn(trace) == old(AcquiresIn(trace)) && InvocationsIn(trace) == old(InvocationsIn(trace))
      ensures ReleasesIn(trace) == old(ReleasesIn(trace)) + Reverse(old(stack))
    {
      tail := [];
      while stack != []
        invariant AcquiresIn(trace) == old(AcquiresIn(trace)) && InvocationsIn(trace) == old(InvocationsIn(trace))
        invariant ReleasesIn(trace) + Reverse(stack) == old(ReleasesIn(trace)) + Reverse(old(stack))
        invariant trace == old(trace) + tail && AllReleases(tail)
        decreases |stack|
      {
        var n := |stack| - 1;
        TraceSnoc(trace, Release(stack[n]));
        Reassociate(ReleasesIn(trace), [stack[n]], Reverse(stack[..n]));
        Reassociate(old(trace), tail, [Release(stack[n])]);
        trace := trace + [Release(stack[n])];
        tail := tail + [Release(stack[n])];
        stack := stack[..n];
      }
    }

    /** Resolve the parameters in order until one fails. */
    method ResolveAll(plan: seq<Dep>) returns (resolved: nat, values: seq<nat>)
      requires cache == map[] && stack == [] && trace == []
      modifies this`cache, this`stack, this`trace
      ensures resolved <= |plan| && values == Sources(plan, resolved) && Healthy(plan, fails, resolved)
      ensures resolved < |plan| ==> Invoked(plan, resolved) && fails(resolved)
      ensures stack == AcquiresIn(trace) == Acquired(plan, kinds, resolved) && ReleasesIn(trace) == [] && Quiet(trace)
      ensures InvocationsIn(trace) == Invocations(plan, resolved)
    {
      values := [];
      for i := 0 to |plan|
        invariant Resolved(plan, i) && Quiet(trace) && values == Sources(plan, i) && Healthy(plan, fails, i)
      {
        var value := Resolve(plan[i], i, plan);
        if value.None? {
          return i, values;
        }
        values := values + [value.value];
      }
      resolved := |plan|;
    }

    /** The extended wrapper around one request: whatever fails, every acquired instance is released
        exactly once, in reverse order, after any response. */
    method Handle(plan: seq<Dep>, ending: Ending) returns (resolved: nat, values: seq<nat>)
      requires cache == map[] && stack == [] && trace == []
      modifies this
      ensures resolved <= |plan| && values == Sources(plan, resolved) && Healthy(plan, fails, resolved)
      ensures resolved < |plan| ==> Invoked(plan, resolved) && fails(resolved)
      ensures AcquiresIn(trace) == Acquired(plan, kinds, resolved) && InvocationsIn(trace) == Invocations(plan, resolved)
      ensures ReleasesIn(trace) == Reverse(AcquiresIn(trace)) && Distinct(ReleasesIn(trace))
      ensures ReleasesLast(trace)
      ensures RunHandler in trace <==> resolved == |plan|
      ensures Respond in trace <==> resolved == |plan| && ending.Clean?
    {
      resolved, values := ResolveAll(plan);
      AcquiredOnce(plan, kinds, resolved);
      ReverseDistinct(stack);
      ghost var body := trace;
      if resolved == |plan| {
        RunAndRespond(ending);
      }
      ghost var before := trace;
      ghost var tail := Unwind();
      WholeTrace(body, before, tail);
    }

    method RunAndRespond(ending: Ending)
      requires Quiet(trace)
      modifies this`trace
      ensures AcquiresIn(trace) == old(AcquiresIn(trace)) && ReleasesIn(trace) == old(ReleasesIn(trace))
      ensures InvocationsIn(trace) == old(InvocationsIn(trace))
      ensures trace == old(trace) + [RunHandler] + (if ending.Clean? then [Respond] else [])
    {
      TraceSnoc(trace, RunHandler);
      trace := trace + [RunHandler];
      if ending.Clean? {
        TraceSnoc(trace, Respond);
        trace := trace + [Respond];
      }
    }
  }

  /** Only provider calls so far. */
  ghost predicate Quiet(trace: seq<Event>) {
    forall k :: 0 <= k < |trace| ==> trace[k].Acquire? || trace[k].Call?
  }

  ghost predicate AllReleases(trace: seq<Event>) {
    forall k :: 0 <= k < |trace| ==> trace[k].Release?
  }

  /** Nothing but releases happens after the first release. */
  ghost predicate ReleasesLast(trace: seq<Event>) {
    forall i, j :: 0 <= i < j < |trace| && trace[i].Release? ==> trace[j].Release?
  }

  lemma WholeTrace(body: seq<Event>, before: seq<Event>, tail: seq<Event>)
    requires Quiet(body) && AllReleases(tail)
    requires before == body || before == body + [RunHandler] || before == body + [RunHandler] + [Respond]
    ensures ReleasesLast(before + tail)
    ensures RunHandler in before + tail <==> before != body
    ensures Respond in before + tail <==> before == body + [RunHandler] + [Respond]
  {
    var n := |body|;
    assert forall k :: 0 <= k < n ==> before[k] == body[k];
    assert n < |before| ==> before[n] == RunHandler;
    assert n + 1 < |before| ==> before[n + 1] == Respond;
  }
}
