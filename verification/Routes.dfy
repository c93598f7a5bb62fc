/** Registered routes as data, what it means for one of them to answer a request, and the
    two ways of choosing among them: a linear scan of the registration list, and the
    depth-first walk over route prefixes that the routing trie performs. */
module Routes {
  import opened Options
  import opened Paths

  datatype Scheme = Http | Websocket
  datatype SchemeKey = AnyScheme | Schemes(listed: seq<Scheme>)

  /** The keys of the converter table; `str` and `path` share one Python callable. */
  datatype Converter = StrConv | IntConv | UuidConv | PathConv

  datatype Value = Text(text: string) | Number(n: int) | Uuid(digits: string)

  /** A converter call: `None` stands for a raised ValueError or TypeError. */
  type Convert = (Converter, string) -> Option<Value>

  type Params = map<string, Value>

  /** One edge of the trie: a literal segment, any one segment, or the rest of the path. */
  datatype Step = Lit(text: string) | One | Rest
  type Shape = seq<Step>

  datatype Spec = Spec(name: string, conv: Converter, wildcard: bool)

  datatype Entry = Entry(methods: seq<string>, scheme: SchemeKey, handler: nat, specs: seq<Spec>)

  datatype Route = Route(shape: Shape, entry: Entry)

  /** A request, already cut into segments. */
  datatype Query = Query(segs: seq<string>, verb: string, scheme: Scheme, conv: Convert)

  datatype Hit = Hit(handler: nat, params: Params)

  /** `(handler, params, allowed)`; `allowed` is only read on a miss. */
  datatype Outcome = Outcome(hit: Option<Hit>, allowed: set<string>)

  // ---- One entry against one capture list ------------------------------------------

  predicate SchemeMatches(scheme: Scheme, key: SchemeKey) {
    key.AnyScheme? || scheme in key.listed
  }

  /** The dictionary `{name: conv(caps[j])}`: a rejecting converter rejects the whole entry,
      and a later parameter of the same name wins. */
  function Bind(specs: seq<Spec>, caps: seq<string>, conv: Convert): (params: Option<Params>) {
    if |specs| != |caps| then None
    else if specs == [] then Some(map[])
    else
      var n := |specs| - 1;
      var before := Bind(specs[..n], caps[..n], conv);
      var last := conv(specs[n].conv, caps[n]);
      if before.None? || last.None? then None else Some(before.value[specs[n].name := last.value])
  }

  /** Everything except the method accepts. */
  predicate Fits(e: Entry, caps: seq<string>, q: Query) {
    SchemeMatches(q.scheme, e.scheme) && Bind(e.specs, caps, q.conv).Some?
  }

  predicate Answers(e: Entry, caps: seq<string>, q: Query) {
    Fits(e, caps, q) && q.verb in e.methods
  }

  function HitOf(e: Entry, caps: seq<string>, q: Query): (hit: Hit)
    requires Fits(e, caps, q)
  {
    Hit(e.handler, Bind(e.specs, caps, q.conv).value)
  }

  /** The first answering entry of a list. */
  function FirstAnswer(entries: seq<Entry>, caps: seq<string>, q: Query): (hit: Option<Hit>) {
    if entries == [] then None
    else
      var n := |entries| - 1;
      var before := FirstAnswer(entries[..n], caps, q);
      if before.Some? then before
      else if Answers(entries[n], caps, q) then Some(HitOf(entries[n], caps, q))
      else None
  }

  /** The methods of every fitting entry of a list. */
  function FittingMethods(entries: seq<Entry>, caps: seq<string>, q: Query): (methods: set<string>) {
    set e, m | e in entries && Fits(e, caps, q) && m in e.methods :: m
  }

  function AtTerminal(entries: seq<Entry>, caps: seq<string>, q: Query): (o: Outcome) {
    var hit := FirstAnswer(entries, caps, q);
    Outcome(hit, if hit.Some? then {} else FittingMethods(entries, caps, q))
  }

  // ---- Reference: scan the registration list ---------------------------------------

  /** The captures with which a whole route shape matches a segment list. A wildcard needs at
      least one segment and nothing may follow it. */
  function Match(shape: Shape, segs: seq<string>): (caps: Option<seq<string>>) {
    if shape == [] then (if segs == [] then Some([]) else None)
    else if segs == [] then None
    else match shape[0]
      case Lit(text) => if text == segs[0] then Match(shape[1..], segs[1..]) else None
      case One =>
        var rest := Match(shape[1..], segs[1..]);
        if rest.None? then None else Some([segs[0]] + rest.value)
      case Rest => if |shape| == 1 then Some([Join(segs)]) else None
  }

  /** Path, scheme and converters accept: the route counts towards the allowed methods. */
  predicate Offers(r: Route, q: Query) {
    var caps := Match(r.shape, q.segs);
    caps.Some? && Fits(r.entry, caps.value, q)
  }

  predicate Serves(r: Route, q: Query) {
    Offers(r, q) && q.verb in r.entry.methods
  }

  function HitFrom(r: Route, q: Query): (hit: Hit)
    requires Offers(r, q)
  {
    HitOf(r.entry, Match(r.shape, q.segs).value, q)
  }

  function OfferedMethods(log: seq<Route>, q: Query): (methods: set<string>) {
    set r, m | r in log && Offers(r, q) && m in r.entry.methods :: m
  }

  function Rank(s: Step): (n: nat) {
    match s case Lit(_) => 0 case One => 1 case Rest => 2
  }

  /** Static before parameter before wildcard, at the first differing segment. */
  predicate Before(a: Shape, b: Shape) {
    a != [] && b != [] &&
    if a[0] == b[0] then Before(a[1..], b[1..]) else Rank(a[0]) < Rank(b[0])
  }

  predicate Beats(log: seq<Route>, k: nat, j: nat)
    requires k < |log| && j < |log|
  {
    Before(log[k].shape, log[j].shape) || (log[k].shape == log[j].shape && k < j)
  }

  /** Route `k` serves the request and beats every other route that does. */
  predicate IsBest(log: seq<Route>, q: Query, k: nat) {
    k < |log| && Serves(log[k], q) &&
    forall j: nat :: j < |log| && j != k && Serves(log[j], q) ==> Beats(log, k, j)
  }

  /** One pass over the registrations in order, keeping the best so far. */
  function Pick(log: seq<Route>, q: Query): (k: Option<nat>)
    ensures k.Some? ==> k.value < |log| && Serves(log[k.value], q)
  {
    if log == [] then None
    else
      var n := |log| - 1;
      var best := Pick(log[..n], q);
      if !Serves(log[n], q) then best
      else if best.None? || Before(log[n].shape, log[best.value].shape) then Some(n)
      else best
  }

  /** What the linear scan answers. */
  function ScanOutcome(log: seq<Route>, q: Query): (o: Outcome) {
    var k := Pick(log, q);
    if k.Some? then Outcome(Some(HitFrom(log[k.value], q)), {})
    else Outcome(None, OfferedMethods(log, q))
  }

  // ---- The walk ---------------------------------------------------------------------

  /** The entries stored at the trie node reached by exactly the steps `p`. */
  function EntriesAt(log: seq<Route>, p: Shape): (entries: seq<Entry>) {
    if log == [] then []
    else
      var n := |log| - 1;
      EntriesAt(log[..n], p) + (if log[n].shape == p then [log[n].entry] else [])
  }

  function OrElse(a: Outcome, b: Outcome): (o: Outcome) {
    if a.hit.Some? then Outcome(a.hit, {})
    else if b.hit.Some? then Outcome(b.hit, {})
    else Outcome(None, a.allowed + b.allowed)
  }

  /** The recursive walk from the node at `p`: static child, then parameter child, then
      wildcard child, which swallows the remaining segments. */
  function Walk(log: seq<Route>, q: Query, p: Shape, idx: nat, caps: seq<string>): (o: Outcome)
    requires idx <= |q.segs|
    decreases |q.segs| - idx
  {
    if idx == |q.segs| then AtTerminal(EntriesAt(log, p), caps, q)
    else
      var seg := q.segs[idx];
      OrElse(Walk(log, q, p + [Lit(seg)], idx + 1, caps),
             OrElse(Walk(log, q, p + [One], idx + 1, caps + [seg]),
                    Walk(log, q, p + [Rest], |q.segs|, caps + [Join(q.segs[idx..])])))
  }

  // ---- Order facts ------------------------------------------------------------------

  lemma {:induction false} BeforeTransitive(a: Shape, b: Shape, c: Shape)
    requires Before(a, b) && Before(b, c)
    ensures Before(a, c)
  {
    if a[0] == b[0] && b[0] == c[0] {
      BeforeTransitive(a[1..], b[1..], c[1..]);
    }
  }

  lemma {:induction false} BeforeAsymmetric(a: Shape, b: Shape)
    requires Before(a, b)
    ensures !Before(b, a) && a != b
  {
    if a[0] == b[0] {
      BeforeAsymmetric(a[1..], b[1..]);
    }
  }

  /** Two shapes that match the same path are ordered. */
  lemma {:induction false} MatchingComparable(a: Shape, b: Shape, segs: seq<string>)
    requires Match(a, segs).Some? && Match(b, segs).Some?
    ensures a == b || Before(a, b) || Before(b, a)
  {
    if a != [] && b != [] && a[0] == b[0] && !a[0].Rest? {
      MatchingComparable(a[1..], b[1..], segs[1..]);
      assert a == [a[0]] + a[1..] && b == [b[0]] + b[1..];
    }
  }

  lemma {:induction false} BeforeUnderPrefix(p: Shape, x: Step, y: Step, a: Shape, b: Shape)
    requires p + [x] <= a && p + [y] <= b && Rank(x) < Rank(y)
    ensures Before(a, b)
  {
    if p == [] {
      assert a[0] == x && b[0] == y;
    } else {
      assert a[0] == (p + [x])[0] == p[0] == (p + [y])[0] == b[0];
      assert p[1..] + [x] == (p + [x])[1..] <= a[1..];
      assert p[1..] + [y] == (p + [y])[1..] <= b[1..];
      BeforeUnderPrefix(p[1..], x, y, a[1..], b[1..]);
    }
  }

  /** The scan's choice is the best route. */
  lemma {:induction false} PickIsBest(log: seq<Route>, q: Query)
    ensures Pick(log, q).None? ==> forall r :: r in log ==> !Serves(r, q)
    ensures Pick(log, q).Some? ==> IsBest(log, q, Pick(log, q).value)
  {
    if log != [] {
      var n := |log| - 1;
      var front := log[..n];
      PickIsBest(front, q);
      var was, now := Pick(front, q), Pick(log, q);
      assert forall r :: r in log ==> r in front || r == log[n];
      if now.Some? {
        var k := now.value;
        forall j: nat | j < |log| && j != k && Serves(log[j], q) ensures Beats(log, k, j) {
          if k == n {
            assert front[j] == log[j];
            var b := was.value;
            assert b == j || Beats(front, b, j);
            if b != j && Before(log[b].shape, log[j].shape) {
              BeforeTransitive(log[n].shape, log[b].shape, log[j].shape);
            }
          } else if j == n {
            MatchingComparable(log[k].shape, log[n].shape, q.segs);
          } else {
            assert front[j] == log[j];
            assert Beats(front, k, j);
          }
        }
      }
    }
  }

  /** There is at most one best route. */
  lemma BestUnique(log: seq<Route>, q: Query, k: nat, j: nat)
    requires IsBest(log, q, k) && IsBest(log, q, j)
    ensures k == j
  {
    if k != j {
      assert Beats(log, k, j) && Beats(log, j, k);
      if Before(log[k].shape, log[j].shape) {
        BeforeAsymmetric(log[k].shape, log[j].shape);
      } else {
        BeforeAsymmetric(log[j].shape, log[k].shape);
      }
    }
  }

  // ---- The walk picks what the scan picks ---------------------------------------------

  /** Route `r` lies below `p`, and its remaining steps match the segments from `idx` on. */
  predicate Below(r: Route, q: Query, p: Shape, idx: nat, caps: seq<string>)
    requires idx <= |q.segs|
  {
    p <= r.shape && Match(r.shape[|p|..], q.segs[idx..]).Some? &&
    Fits(r.entry, caps + Match(r.shape[|p|..], q.segs[idx..]).value, q)
  }

  function HitBelow(r: Route, q: Query, p: Shape, idx: nat, caps: seq<string>): (hit: Hit)
    requires idx <= |q.segs| && Below(r, q, p, idx, caps)
  {
    HitOf(r.entry, caps + Match(r.shape[|p|..], q.segs[idx..]).value, q)
  }

  /** Being below a node is being below exactly one of its three children. */
  lemma BelowSplits(r: Route, q: Query, p: Shape, idx: nat, caps: seq<string>)
    requires idx < |q.segs|
    ensures var seg := q.segs[idx];
            var rest := Join(q.segs[idx..]);
            && (Below(r, q, p, idx, caps) <==>
                || Below(r, q, p + [Lit(seg)], idx + 1, caps)
                || Below(r, q, p + [One], idx + 1, caps + [seg])
                || Below(r, q, p + [Rest], |q.segs|, caps + [rest]))
            && (Below(r, q, p + [Lit(seg)], idx + 1, caps) ==>
                HitBelow(r, q, p, idx, caps) == HitBelow(r, q, p + [Lit(seg)], idx + 1, caps))
            && (Below(r, q, p + [One], idx + 1, caps + [seg]) ==>
                HitBelow(r, q, p, idx, caps) == HitBelow(r, q, p + [One], idx + 1, caps + [seg]))
            && (Below(r, q, p + [Rest], |q.segs|, caps + [rest]) ==>
                HitBelow(r, q, p, idx, caps) == HitBelow(r, q, p + [Rest], |q.segs|, caps + [rest]))
  {
    var n := |p|;
    if p <= r.shape && n < |r.shape| {
      var x := r.shape[n];
      var tail := r.shape[n..];
      var segs := q.segs[idx..];
      assert p + [x] <= r.shape;
      assert tail[0] == x && tail[1..] == r.shape[n + 1..];
      assert segs[0] == q.segs[idx] && segs[1..] == q.segs[idx + 1..];
      assert q.segs[|q.segs|..] == [];
      match x {
        case Lit(text) =>
        case One =>
          var m := Match(tail[1..], segs[1..]);
          if m.Some? {
            assert caps + ([segs[0]] + m.value) == caps + [segs[0]] + m.value;
          }
        case Rest =>
          if |tail| == 1 {
            assert caps + [Join(segs)] == caps + [Join(segs)] + [];
          }
      }
    }
  }

  lemma {:induction false} EntriesAtMembers(log: seq<Route>, p: Shape, e: Entry)
    ensures e in EntriesAt(log, p) <==> Route(p, e) in log
  {
    if log != [] {
      var n := |log| - 1;
      EntriesAtMembers(log[..n], p, e);
      assert log == log[..n] + [log[n]];
    }
  }

  /** At a terminal the first answering entry is the earliest registration of that shape. */
  lemma {:induction false} FirstAnswerIsEarliest(log: seq<Route>, p: Shape, caps: seq<string>, q: Query)
    returns (k: nat)
    ensures var hit := FirstAnswer(EntriesAt(log, p), caps, q);
            && (hit.None? ==> forall j :: 0 <= j < |log| && log[j].shape == p ==> !Answers(log[j].entry, caps, q))
            && (hit.Some? ==>
                && k < |log| && log[k].shape == p && Answers(log[k].entry, caps, q)
                && hit.value == HitOf(log[k].entry, caps, q)
                && forall j :: 0 <= j < k && log[j].shape == p ==> !Answers(log[j].entry, caps, q))
  {
    k := 0;
    if log != [] {
      var n := |log| - 1;
      var front := log[..n];
      k := FirstAnswerIsEarliest(front, p, caps, q);
      assert forall j :: 0 <= j < n ==> front[j] == log[j];
      if log[n].shape == p {
        var before := EntriesAt(front, p);
        assert EntriesAt(log, p)[..|before|] == before;
        if FirstAnswer(before, caps, q).None? {
          k := n;
        }
      } else {
        assert EntriesAt(log, p) == EntriesAt(front, p);
      }
    }
  }

  /** What `Walk` promises from an inner node. */
  ghost predicate WalkRight(log: seq<Route>, q: Query, p: Shape, idx: nat, caps: seq<string>, k: nat)
    requires idx <= |q.segs|
  {
    var o := Walk(log, q, p, idx, caps);
    if o.hit.Some? then
      && o.allowed == {}
      && k < |log| && Below(log[k], q, p, idx, caps) && q.verb in log[k].entry.methods
      && o.hit.value == HitBelow(log[k], q, p, idx, caps)
      && (forall j: nat :: j < |log| && j != k && Below(log[j], q, p, idx, caps) && q.verb in log[j].entry.methods
                           ==> Beats(log, k, j))
    else
      && (forall j: nat :: j < |log| && Below(log[j], q, p, idx, caps) ==> q.verb !in log[j].entry.methods)
      && o.allowed == MethodsBelow(log, q, p, idx, caps)
  }

  ghost function MethodsBelow(log: seq<Route>, q: Query, p: Shape, idx: nat, caps: seq<string>): set<string>
    requires idx <= |q.segs|
  {
    set r, m | r in log && Below(r, q, p, idx, caps) && m in r.entry.methods :: m
  }

  lemma TerminalRight(log: seq<Route>, q: Query, p: Shape, caps: seq<string>) returns (k: nat)
    ensures WalkRight(log, q, p, |q.segs|, caps, k)
  {
    k := FirstAnswerIsEarliest(log, p, caps, q);
    var n := |q.segs|;
    var o := Walk(log, q, p, n, caps);
    assert q.segs[n..] == [];
    forall r: Route
      ensures Below(r, q, p, n, caps) <==> r.shape == p && Fits(r.entry, caps, q)
      ensures Below(r, q, p, n, caps) ==> HitBelow(r, q, p, n, caps) == HitOf(r.entry, caps, q)
    {
      if p <= r.shape {
        assert r.shape[|p|..] == [] <==> r.shape == p;
        assert caps + [] == caps;
      }
    }
    if o.hit.None? {
      forall m ensures m in o.allowed <==> m in MethodsBelow(log, q, p, n, caps) {
        if m in o.allowed {
          var e :| e in EntriesAt(log, p) && Fits(e, caps, q) && m in e.methods;
          EntriesAtMembers(log, p, e);
          assert Below(Route(p, e), q, p, n, caps);
        }
        if m in MethodsBelow(log, q, p, n, caps) {
          var r :| r in log && Below(r, q, p, n, caps) && m in r.entry.methods;
          EntriesAtMembers(log, p, r.entry);
          assert r == Route(p, r.entry);
        }
      }
    }
  }

  lemma {:induction false} WalkCorrect(log: seq<Route>, q: Query, p: Shape, idx: nat, caps: seq<string>)
    returns (k: nat)
    requires idx <= |q.segs|
    ensures WalkRight(log, q, p, idx, caps, k)
    decreases |q.segs| - idx
  {
    if idx == |q.segs| {
      k := TerminalRight(log, q, p, caps);
      return;
    }
    var seg := q.segs[idx];
    var rest := Join(q.segs[idx..]);
    var a := WalkCorrect(log, q, p + [Lit(seg)], idx + 1, caps);
    var b := WalkCorrect(log, q, p + [One], idx + 1, caps + [seg]);
    var c := WalkCorrect(log, q, p + [Rest], |q.segs|, caps + [rest]);
    k := if Walk(log, q, p + [Lit(seg)], idx + 1, caps).hit.Some? then a
         else if Walk(log, q, p + [One], idx + 1, caps + [seg]).hit.Some? then b
         else c;
    WalkCombines(log, q, p, idx, caps, a, b, c, k);
  }

  lemma WalkCombines(log: seq<Route>, q: Query, p: Shape, idx: nat, caps: seq<string>,
                     a: nat, b: nat, c: nat, k: nat)
    requires idx < |q.segs|
    requires WalkRight(log, q, p + [Lit(q.segs[idx])], idx + 1, caps, a)
    requires WalkRight(log, q, p + [One], idx + 1, caps + [q.segs[idx]], b)
    requires WalkRight(log, q, p + [Rest], |q.segs|, caps + [Join(q.segs[idx..])], c)
    requires k == if Walk(log, q, p + [Lit(q.segs[idx])], idx + 1, caps).hit.Some? then a
                  else if Walk(log, q, p + [One], idx + 1, caps + [q.segs[idx]]).hit.Some? then b
                  else c
    ensures WalkRight(log, q, p, idx, caps, k)
  {
    var seg := q.segs[idx];
    var rest := Join(q.segs[idx..]);
    var o := Walk(log, q, p, idx, caps);
    if o.hit.Some? {
      BelowSplits(log[k], q, p, idx, caps);
      var x := log[k].shape[|p|];
      forall j: nat | j < |log| && j != k && Below(log[j], q, p, idx, caps) && q.verb in log[j].entry.methods
        ensures Beats(log, k, j)
      {
        BelowSplits(log[j], q, p, idx, caps);
        if x.Lit? && Below(log[j], q, p + [Lit(seg)], idx + 1, caps) {
        } else if x.One? && Below(log[j], q, p + [One], idx + 1, caps + [seg]) {
        } else if x.Rest? && Below(log[j], q, p + [Rest], |q.segs|, caps + [rest]) {
        } else {
          BeforeUnderPrefix(p, x, log[j].shape[|p|], log[k].shape, log[j].shape);
        }
      }
    } else {
      forall r | r in log { BelowSplits(r, q, p, idx, caps); }
      assert o.allowed == MethodsBelow(log, q, p + [Lit(seg)], idx + 1, caps)
                        + (MethodsBelow(log, q, p + [One], idx + 1, caps + [seg])
                           + MethodsBelow(log, q, p + [Rest], |q.segs|, caps + [rest]));
    }
  }

  /** The depth-first walk answers what the linear scan answers: the same handler and
      parameters on a hit, and the same set of allowed methods on a miss. */
  lemma WalkIsScan(log: seq<Route>, q: Query)
    ensures Walk(log, q, [], 0, []) == ScanOutcome(log, q)
  {
    var k := WalkCorrect(log, q, [], 0, []);
    assert q.segs[0..] == q.segs;
    forall r: Route
      ensures Below(r, q, [], 0, []) <==> Offers(r, q)
      ensures Offers(r, q) ==> HitBelow(r, q, [], 0, []) == HitFrom(r, q)
    {
      assert r.shape[0..] == r.shape;
      if Match(r.shape, q.segs).Some? {
        assert [] + Match(r.shape, q.segs).value == Match(r.shape, q.segs).value;
      }
    }
    PickIsBest(log, q);
    var o := Walk(log, q, [], 0, []);
    if o.hit.Some? {
      assert IsBest(log, q, k);
      BestUnique(log, q, k, Pick(log, q).value);
    } else {
      assert MethodsBelow(log, q, [], 0, []) == OfferedMethods(log, q);
    }
  }

  /** A miss never offers the method that was asked for. */
  lemma MissExcludesMethod(log: seq<Route>, q: Query)
    requires ScanOutcome(log, q).hit.None?
    ensures q.verb !in ScanOutcome(log, q).allowed
  {
    PickIsBest(log, q);
  }
}
