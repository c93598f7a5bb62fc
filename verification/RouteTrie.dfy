/** The routing trie as the source builds it: heap nodes changed in place by `Insert`, and the
    three look-ups over them. A ghost map from shapes to nodes and the ghost registration log
    say what the heap means. */
module RouteTries {
  import opened Options
  import opened Paths
  import opened Routes
  import opened Templates

  class TrieNode {
    var children: map<string, TrieNode>
    var paramChild: TrieNode?
    var wildcardChild: TrieNode?
    var entries: seq<Entry>

    constructor ()
      ensures children == map[] && paramChild == null && wildcardChild == null && entries == []
    {
      children := map[];
      paramChild := null;
      wildcardChild := null;
      entries := [];
    }

    /** The child along one step, or null. */
    function Child(step: Step): (child: TrieNode?)
      reads this
    {
      match step
      case Lit(seg) => if seg in children then children[seg] else null
      case One => paramChild
      case Rest => wildcardChild
    }

    method Link(step: Step, child: TrieNode)
      modifies this
      ensures forall x :: Child(x) == if x == step then child else old(Child(x))
      ensures entries == old(entries)
    {
      match step {
        case Lit(seg) => children := children[seg := child];
        case One => paramChild := child;
        case Rest => wildcardChild := child;
      }
    }
  }

  /** One suspended branch of the iterative walk. */
  datatype Frame = Frame(node: TrieNode, idx: nat, caps: seq<string>)

  /** A frame to go on with, if there is one, as the top of a stack. */
  function Tip(f: Option<Frame>): (top: seq<Frame>) { if f.Some? then [f.value] else [] }

  /** The same branch in terms of the registration log. */
  datatype Branch = Branch(p: Shape, idx: nat, caps: seq<string>)

  ghost predicate BranchOk(b: Branch, q: Query) {
    b.idx <= |q.segs| && |b.caps| == Captures(b.p)
  }

  ghost predicate BranchesOk(pending: seq<Branch>, q: Query) {
    forall i :: 0 <= i < |pending| ==> BranchOk(pending[i], q)
  }

  ghost function BranchHit(log: seq<Route>, q: Query, b: Branch): Option<Hit>
    requires BranchOk(b, q)
  {
    Walk(log, q, b.p, b.idx, b.caps).hit
  }

  /** The first hit of the suspended branches, most recently pushed first. */
  ghost function PendingHit(log: seq<Route>, q: Query, pending: seq<Branch>): Option<Hit>
    requires BranchesOk(pending, q)
  {
    if pending == [] then None
    else
      var n := |pending| - 1;
      var top := BranchHit(log, q, pending[n]);
      if top.Some? then top else PendingHit(log, q, pending[..n])
  }

  /** No two branches lie on one line of descent, and none leads back to a visited node. */
  ghost predicate Separate(pending: seq<Branch>, visits: seq<Shape>) {
    && (forall i, j :: 0 <= i < |pending| && 0 <= j < |pending| && i != j ==> !(pending[i].p <= pending[j].p))
    && (forall i, v :: 0 <= i < |pending| && v in visits ==> !(pending[i].p <= v))
  }

  /** Nothing registered below a shape: the walk from there misses and offers nothing. */
  lemma NothingBelow(log: seq<Route>, q: Query, p: Shape, idx: nat, caps: seq<string>)
    requires idx <= |q.segs|
    requires forall r :: r in log ==> !(p <= r.shape)
    ensures Walk(log, q, p, idx, caps) == Outcome(None, {})
  {
    var k := WalkCorrect(log, q, p, idx, caps);
    assert forall j :: 0 <= j < |log| ==> log[j] in log;
  }

  /** An all-literal shape that answers is the first thing the walk tries. */
  lemma {:induction false} StaticFirst(log: seq<Route>, q: Query, idx: nat)
    requires idx <= |q.segs|
    requires FirstAnswer(EntriesAt(log, AllLit(q.segs)), [], q).Some?
    ensures Walk(log, q, AllLit(q.segs)[..idx], idx, []).hit
         == FirstAnswer(EntriesAt(log, AllLit(q.segs)), [], q)
    decreases |q.segs| - idx
  {
    var all := AllLit(q.segs);
    if idx == |q.segs| {
      assert all[..idx] == all;
    } else {
      StaticFirst(log, q, idx + 1);
      assert all[..idx] + [Lit(q.segs[idx])] == all[..idx + 1];
    }
  }

  lemma ThirdArm(o1: Outcome, o2: Outcome, o3: Outcome)
    requires o1.hit.None? && o2.hit.None?
    ensures OrElse(o1, OrElse(o2, o3)) ==
            if o3.hit.Some? then Outcome(o3.hit, {}) else Outcome(None, o1.allowed + o2.allowed + o3.allowed)
  {
    assert o1.allowed + o2.allowed + o3.allowed == o1.allowed + (o2.allowed + o3.allowed);
  }

  /** The first `i` segments stand for this shape and these specs, and no wildcard is out of place. */
  ghost predicate PlacedUpTo(segments: seq<string>, i: nat, p: Shape, specs: seq<Spec>)
    requires i <= |segments|
  {
    && p == ShapeOf(segments[..i]) && specs == SpecsOf(segments[..i])
    && forall j :: 0 <= j < i && j < |segments| - 1 ==> !StepOf(segments[j]).Rest?
  }

  lemma PlaceOne(segments: seq<string>, i: nat, p: Shape, specs: seq<Spec>)
    requires i < |segments| && PlacedUpTo(segments, i, p, specs)
    ensures var seg := segments[i];
            if StepOf(seg).Rest? && i != |segments| - 1 then !WildcardLast(segments)
            else PlacedUpTo(segments, i + 1, p + [StepOf(seg)], if Braced(seg) then specs + [SpecOf(seg)] else specs)
  {
    ShapeSnoc(segments, i);
    if !Braced(segments[i]) {
      assert specs + [] == specs;
    }
  }

  /** Where a step leads from a shape, in a map from shapes to nodes. */
  ghost function Target(at: map<Shape, TrieNode>, p: Shape, x: Step): TrieNode? {
    if p + [x] in at then at[p + [x]] else null
  }

  lemma TargetAfterGrowth(at: map<Shape, TrieNode>, p: Shape, step: Step, child: TrieNode, s: Shape, x: Step)
    ensures Target(at[p + [step] := child], s, x) == if s == p && x == step then child else Target(at, s, x)
  {
    assert (p + [step])[|p|] == step && (p + [step])[..|p|] == p;
    assert (s + [x])[|s|] == x && (s + [x])[..|s|] == s;
  }

  lemma {:induction false} NoEntries(log: seq<Route>, p: Shape)
    requires forall r :: r in log ==> r.shape != p
    ensures EntriesAt(log, p) == []
  {
    if log != [] {
      assert log[|log| - 1] in log;
      NoEntries(log[..|log| - 1], p);
    }
  }

  /** The dictionary with a static route under its raw and its normalised path. */
  function WithStatic(known: map<string, TrieNode>, path: string, segments: seq<string>, node: TrieNode)
    : (now: map<string, TrieNode>)
  {
    known[path := node]["/" + Join(segments) := node]
  }

  class RouteTrie {
    const root: TrieNode
    const conv: Convert
    var staticFull: map<string, TrieNode>
    ghost var at: map<Shape, TrieNode>
    ghost var nodes: set<TrieNode>
    ghost var log: seq<Route>

    /** The links and entries of the node at `p`. */
    ghost predicate NodeOk(p: Shape)
      reads this`at, this`nodes, this`log, nodes
    {
      p in at && at[p] in nodes &&
      var node := at[p];
      && (forall x :: node.Child(x) == Target(at, p, x))
      && node.entries == EntriesAt(log, p)
    }

    /** The heap is the tree that the node map describes. */
    ghost predicate TreeOk()
      reads this`at, this`nodes, this`log, nodes
    {
      && [] in at && at[[]] == root
      && (forall p, q :: p in at && q in at && at[p] == at[q] ==> p == q)
      && (forall p :: p in at ==> NodeOk(p))
      && (forall p, x :: p + [x] in at ==> p in at)
      && (forall r :: r in log ==> r.shape in at && |r.entry.specs| == Captures(r.shape))
    }

    /** Every indexed path leads to the all-literal node of its segments. */
    ghost predicate StaticOk()
      reads this`at, this`staticFull
    {
      forall s :: s in staticFull ==> AllLit(Segments(s)) in at && staticFull[s] == at[AllLit(Segments(s))]
    }

    ghost predicate Valid()
      reads this, nodes
    {
      TreeOk() && StaticOk()
    }

    constructor (conv: Convert)
      ensures Valid() && log == [] && this.conv == conv
      ensures fresh(nodes)
    {
      this.conv := conv;
      staticFull := map[];
      var node := new TrieNode();
      root := node;
      at := map[[] := node];
      nodes := {node};
      log := [];
      new;
      assert at.Keys == {[]};
      assert at[[]] == root;
    }

    /** Hang a new, empty node below the node at `p`. */
    method Grow(node: TrieNode, ghost p: Shape, step: Step) returns (child: TrieNode)
      requires Valid() && p in at && at[p] == node && p + [step] !in at
      modifies this`at, this`nodes, node
      ensures Valid() && at == old(at)[p + [step] := child]
      ensures fresh(child) && nodes == old(nodes) + {child}
    {
      ghost var here := p + [step];
      child := new TrieNode();
      node.Link(step, child);
      NoEntries(log, here);
      at, nodes := at[here := child], nodes + {child};
      forall s | s in at ensures NodeOk(s) {
        assert s != here ==> old(NodeOk(s));
        forall x ensures at[s].Child(x) == Target(at, s, x) {
          TargetAfterGrowth(old(at), p, step, child, s, x);
          assert s == here ==> here + [x] !in old(at);
        }
      }
      forall s, x | s + [x] in at ensures s in at {
        assert s + [x] == here ==> (s + [x])[..|s|] == s == here[..|p|] == p;
      }
    }

    /** Follow one step from the node at `p`, creating the child when it is missing. */
    method Descend(node: TrieNode, ghost p: Shape, step: Step) returns (child: TrieNode)
      requires Valid() && p in at && at[p] == node
      modifies this`at, this`nodes, node
      ensures Valid() && p + [step] in at && at[p + [step]] == child
      ensures fresh(nodes - old(nodes))
    {
      assert NodeOk(p);
      if node.Child(step) != null {
        child := node.Child(step);
      } else {
        child := Grow(node, p, step);
      }
    }

    /** Append an entry to the node at `p` and record the registration. */
    method Append(node: TrieNode, ghost p: Shape, entry: Entry)
      requires Valid() && p in at && at[p] == node && |entry.specs| == Captures(p)
      modifies this`log, node`entries
      ensures Valid() && log == old(log) + [Route(p, entry)]
    {
      node.entries := node.entries + [entry];
      log := log + [Route(p, entry)];
      assert log[..|log| - 1] == old(log);
      forall s | s in at ensures NodeOk(s) {
        assert old(NodeOk(s));
        forall x ensures at[s].Child(x) == Target(at, s, x) {
          assert at[s].Child(x) == old(at[s].Child(x));
        }
      }
    }

    /** The segment loop of `insert`: make the path to the terminal node and collect the
        parameter specs. It stops at a wildcard that is not last; the nodes made before it
        was met stay, without entries. */
    method Place(segments: seq<string>) returns (ok: bool, node: TrieNode, specs: seq<Spec>)
      requires Valid()
      modifies this`at, this`nodes, nodes
      ensures Valid() && fresh(nodes - old(nodes))
      ensures ok <==> WildcardLast(segments)
      ensures ok ==> specs == SpecsOf(segments) && ShapeOf(segments) in at && at[ShapeOf(segments)] == node
    {
      node := root;
      ghost var p: Shape := [];
      specs := [];
      for i := 0 to |segments|
        invariant Valid() && fresh(nodes - old(nodes)) && p in at && at[p] == node
        invariant PlacedUpTo(segments, i, p, specs)
      {
        var seg := segments[i];
        PlaceOne(segments, i, p, specs);
        if Braced(seg) {
          if ParamSpec(seg) == "path" && i != |segments| - 1 {
            return false, node, specs;
          }
          specs := specs + [SpecOf(seg)];
        }
        node := Descend(node, p, StepOf(seg));
        p := p + [StepOf(seg)];
      }
      assert segments[..|segments|] == segments;
      ok := true;
    }

    /** `insert`: register a template. A wildcard before the last segment is a configuration
        error and registers nothing. */
    method Insert(path: string, methods: seq<string>, scheme: SchemeKey, handler: nat) returns (ok: bool)
      requires Valid()
      modifies this, nodes
      ensures Valid() && fresh(nodes - old(nodes))
      ensures ok <==> WildcardLast(Segments(path))
      ensures ok ==> log == old(log) + [RouteFor(path, methods, scheme, handler)]
      ensures ok ==> ShapeOf(Segments(path)) in at
      ensures ok ==> staticFull == if SpecsOf(Segments(path)) != [] then old(staticFull)
                                   else WithStatic(old(staticFull), path, Segments(path), at[ShapeOf(Segments(path))])
      ensures !ok ==> log == old(log) && staticFull == old(staticFull)
    {
      var segments := Segments(path);
      ok := InsertSegments(path, segments, methods, scheme, handler);
    }

    method InsertSegments(path: string, segments: seq<string>, methods: seq<string>, scheme: SchemeKey, handler: nat)
      returns (ok: bool)
      requires Valid() && segments == Segments(path)
      modifies this, nodes
      ensures Valid() && fresh(nodes - old(nodes))
      ensures ok <==> WildcardLast(segments)
      ensures ok ==> log == old(log) + [Route(ShapeOf(segments), Entry(methods, scheme, handler, SpecsOf(segments)))]
      ensures ok ==> ShapeOf(segments) in at
      ensures ok ==> staticFull == if SpecsOf(segments) != [] then old(staticFull)
                                   else WithStatic(old(staticFull), path, segments, at[ShapeOf(segments)])
      ensures !ok ==> log == old(log) && staticFull == old(staticFull)
    {
      var node, specs;
      ok, node, specs := Place(segments);
      if ok {
        Finish(path, segments, node, Entry(methods, scheme, handler, specs));
      }
    }

    /** The tail of `insert`, after the segment loop. */
    method Finish(path: string, segments: seq<string>, node: TrieNode, entry: Entry)
      requires Valid() && segments == Segments(path) && entry.specs == SpecsOf(segments)
      requires ShapeOf(segments) in at && at[ShapeOf(segments)] == node
      modifies this`log, this`staticFull, node`entries
      ensures Valid() && log == old(log) + [Route(ShapeOf(segments), entry)]
      ensures staticFull == if entry.specs != [] then old(staticFull) else WithStatic(old(staticFull), path, segments, node)
    {
      SpecsMatchCaptures(segments);
      if entry.specs == [] {
        NoSpecsMeansStatic(segments);
      }
      Record(path, segments, node, entry, ShapeOf(segments));
    }

    /** Store a finished entry, indexing its path when it has no parameters. */
    method Record(path: string, segments: seq<string>, node: TrieNode, entry: Entry, ghost p: Shape)
      requires Valid() && segments == Segments(path) && p in at && at[p] == node
      requires |entry.specs| == Captures(p) && (entry.specs == [] ==> p == AllLit(segments))
      modifies this`log, this`staticFull, node`entries
      ensures Valid() && log == old(log) + [Route(p, entry)]
      ensures staticFull == if entry.specs != [] then old(staticFull) else WithStatic(old(staticFull), path, segments, node)
    {
      Append(node, p, entry);
      if entry.specs == [] {
        IndexStatic(path, segments, node);
      }
    }

    /** Index a fully static route under its raw and its normalised path. */
    method IndexStatic(path: string, segments: seq<string>, node: TrieNode)
      requires Valid() && segments == Segments(path)
      requires AllLit(segments) in at && at[AllLit(segments)] == node
      modifies this`staticFull
      ensures Valid() && staticFull == WithStatic(old(staticFull), path, segments, node)
    {
      SegmentsClean(path);
      SegmentsOfNormalised(segments);
      staticFull := WithStatic(staticFull, path, segments, node);
    }

    // ---- Look-up ------------------------------------------------------------------

    /** The request as the specification sees it. */
    ghost predicate Asks(q: Query, verb: string, scheme: Scheme) {
      q.verb == verb && q.scheme == scheme && q.conv == conv
    }

    /** Convert the captures of one entry, in order. */
    method BindCaptures(specs: seq<Spec>, caps: seq<string>) returns (params: Option<Params>)
      requires |specs| == |caps|
      ensures params == Bind(specs, caps, conv)
    {
      var bound: Params := map[];
      for j := 0 to |specs|
        invariant Bind(specs[..j], caps[..j], conv) == Some(bound)
      {
        var value := conv(specs[j].conv, caps[j]);
        assert specs[..j + 1][..j] == specs[..j] && caps[..j + 1][..j] == caps[..j];
        if value.None? {
          BindPrefix(specs, caps, conv, j + 1);
          return None;
        }
        bound := bound[specs[j].name := value.value];
      }
      assert specs[..|specs|] == specs && caps[..|specs|] == caps;
      params := Some(bound);
    }

    /** `_match_entries`: the first entry whose method, scheme and converters all accept. */
    method MatchEntries(entries: seq<Entry>, caps: seq<string>, verb: string, scheme: Scheme, ghost q: Query)
      returns (hit: Option<Hit>)
      requires Asks(q, verb, scheme)
      requires forall e :: e in entries ==> |e.specs| == |caps|
      ensures hit == FirstAnswer(entries, caps, q)
    {
      for i := 0 to |entries|
        invariant FirstAnswer(entries[..i], caps, q).None?
      {
        var e := entries[i];
        assert entries[..i + 1][..i] == entries[..i];
        if verb !in e.methods { continue; }
        if !(e.scheme.AnyScheme? || scheme in e.scheme.listed) { continue; }
        var params := BindCaptures(e.specs, caps);
        if params.None? { continue; }
        FirstAnswerPrefix(entries, caps, q, i + 1);
        return Some(Hit(e.handler, params.value));
      }
      assert entries[..|entries|] == entries;
      hit := None;
    }

    /** The terminal case of `_lookup`: scheme and converters first, collecting the methods of
        every entry that passes, then the method. */
    method MatchTerminal(entries: seq<Entry>, caps: seq<string>, verb: string, scheme: Scheme, ghost q: Query)
      returns (o: Outcome)
      requires Asks(q, verb, scheme)
      requires forall e :: e in entries ==> |e.specs| == |caps|
      ensures o == AtTerminal(entries, caps, q)
    {
      var allowed: set<string> := {};
      for i := 0 to |entries|
        invariant FirstAnswer(entries[..i], caps, q).None?
        invariant allowed == FittingMethods(entries[..i], caps, q)
      {
        var e := entries[i];
        assert entries[..i + 1] == entries[..i] + [e] && entries[..i + 1][..i] == entries[..i];
        FittingMethodsSnoc(entries[..i], e, caps, q);
        if !SchemeMatches(scheme, e.scheme) { continue; }
        var params := BindCaptures(e.specs, caps);
        if params.None? { continue; }
        allowed := allowed + set m | m in e.methods;
        if verb in e.methods {
          FirstAnswerPrefix(entries, caps, q, i + 1);
          return Outcome(Some(Hit(e.handler, params.value)), {});
        }
      }
      assert entries[..|entries|] == entries;
      o := Outcome(None, allowed);
    }

    /** `_lookup`: the recursive walk, from the node at `p`. */
    method LookupFrom(node: TrieNode, segments: seq<string>, idx: nat, caps: seq<string>, verb: string, scheme: Scheme,
                      ghost p: Shape, ghost start: nat, ghost q: Query)
      returns (o: Outcome)
      requires TreeOk() && Asks(q, verb, scheme) && p in at && at[p] == node
      requires start <= idx <= |segments| && segments[start..] == q.segs && |caps| == Captures(p)
      ensures o == Walk(log, q, p, idx - start, caps)
      decreases |segments| - idx, 0
    {
      if idx == |segments| {
        o := LookupHere(node, caps, verb, scheme, p, q);
        return;
      }
      var seg := segments[idx];
      var rest := Join(segments[idx..]);
      ghost var j := idx - start;
      assert seg == q.segs[j] && segments[idx..] == q.segs[j..];
      CapturesSnoc(p, Lit(seg));
      var o1 := LookupChild(node.Child(Lit(seg)), segments, idx + 1, caps, verb, scheme, p, Lit(seg), start, q);
      if o1.hit.Some? { return Outcome(o1.hit, {}); }
      CapturesSnoc(p, One);
      var o2 := LookupChild(node.paramChild, segments, idx + 1, caps + [seg], verb, scheme, p, One, start, q);
      if o2.hit.Some? { return Outcome(o2.hit, {}); }
      CapturesSnoc(p, Rest);
      var o3 := LookupChild(node.wildcardChild, segments, |segments|, caps + [rest], verb, scheme, p, Rest, start, q);
      o := if o3.hit.Some? then Outcome(o3.hit, {}) else Outcome(None, o1.allowed + o2.allowed + o3.allowed);
      ThirdArm(o1, o2, o3);
    }

    method LookupHere(node: TrieNode, caps: seq<string>, verb: string, scheme: Scheme, ghost p: Shape, ghost q: Query)
      returns (o: Outcome)
      requires TreeOk() && Asks(q, verb, scheme) && p in at && at[p] == node && |caps| == Captures(p)
      ensures o == Walk(log, q, p, |q.segs|, caps)
    {
      assert NodeOk(p);
      EntriesHaveArity(log, p);
      o := MatchTerminal(node.entries, caps, verb, scheme, q);
    }

    /** One arm of `_lookup`: a missing child offers nothing. */
    method LookupChild(child: TrieNode?, segments: seq<string>, idx: nat, caps: seq<string>, verb: string, scheme: Scheme,
                       ghost p: Shape, ghost x: Step, ghost start: nat, ghost q: Query)
      returns (o: Outcome)
      requires TreeOk() && Asks(q, verb, scheme) && p in at && child == at[p].Child(x)
      requires start <= idx <= |segments| && segments[start..] == q.segs && |caps| == Captures(p + [x])
      ensures o == Walk(log, q, p + [x], idx - start, caps)
      decreases |segments| - idx, 1
    {
      assert NodeOk(p);
      if child == null {
        AbsentBelow(p + [x]);
        NothingBelow(log, q, p + [x], idx - start, caps);
        return Outcome(None, {});
      }
      o := LookupFrom(child, segments, idx, caps, verb, scheme, p + [x], start, q);
    }

    /** No registered route passes through a shape that has no node. */
    lemma AbsentBelow(p: Shape)
      requires TreeOk() && p !in at
      ensures forall r :: r in log ==> !(p <= r.shape)
    {
      forall r | r in log ensures !(p <= r.shape) {
        if p <= r.shape { RouteNodes(r, p); }
      }
    }

    lemma RouteNodes(r: Route, p: Shape)
      requires TreeOk() && r in log && p <= r.shape
      ensures p in at
    {
      PrefixPresent(r.shape, |p|);
      assert r.shape[..|p|] == p;
    }

    lemma {:induction false} PrefixPresent(s: Shape, n: nat)
      requires TreeOk() && s in at && n <= |s|
      ensures s[..n] in at
      decreases |s| - n
    {
      if n < |s| {
        PrefixPresent(s, n + 1);
        assert s[..n + 1] == s[..n] + [s[n]];
      } else {
        assert s[..n] == s;
      }
    }

    /** A real frame of the walk and the branch it stands for. */
    ghost predicate FrameOk(f: Frame, b: Branch, start: nat)
      reads this`at
    {
      b.p in at && at[b.p] == f.node && f.idx == start + b.idx && f.caps == b.caps
    }

    ghost predicate FramesOk(stack: seq<Frame>, pending: seq<Branch>, start: nat)
      reads this`at
    {
      |stack| == |pending| && forall i :: 0 <= i < |stack| ==> FrameOk(stack[i], pending[i], start)
    }

    /** The lower-priority children of a node, most specific last. */
    ghost function Kids(b: Branch, q: Query): (kids: seq<Branch>)
      requires b.idx < |q.segs|
      reads this`at
    {
      var seg := q.segs[b.idx];
      (if b.p + [Rest] in at then [Branch(b.p + [Rest], |q.segs|, b.caps + [Join(q.segs[b.idx..])])] else []) +
      (if b.p + [One] in at then [Branch(b.p + [One], b.idx + 1, b.caps + [seg])] else []) +
      (if b.p + [Lit(seg)] in at then [Branch(b.p + [Lit(seg)], b.idx + 1, b.caps)] else [])
    }

    /** Replacing a branch by its children keeps the answer. */
    lemma ExpandHit(pending: seq<Branch>, b: Branch, q: Query)
      requires TreeOk() && BranchesOk(pending, q) && BranchOk(b, q) && b.idx < |q.segs|
      ensures BranchesOk(pending + Kids(b, q), q) && BranchesOk(pending + [b], q)
      ensures PendingHit(log, q, pending + Kids(b, q)) == PendingHit(log, q, pending + [b])
    {
      var seg := q.segs[b.idx];
      var w := Branch(b.p + [Rest], |q.segs|, b.caps + [Join(q.segs[b.idx..])]);
      var o := Branch(b.p + [One], b.idx + 1, b.caps + [seg]);
      var l := Branch(b.p + [Lit(seg)], b.idx + 1, b.caps);
      CapturesSnoc(b.p, Rest);
      CapturesSnoc(b.p, One);
      CapturesSnoc(b.p, Lit(seg));
      var s1 := Extended(pending, w, q);
      var s2 := Extended(s1, o, q);
      var s3 := Extended(s2, l, q);
      Regroup(pending, if w.p in at then [w] else [], if o.p in at then [o] else [], if l.p in at then [l] else []);
      PendingHitSnoc(log, q, pending, b);
    }

    /** Push a branch if its node exists; a missing one could not have answered. */
    lemma Extended(pending: seq<Branch>, b: Branch, q: Query) returns (more: seq<Branch>)
      requires TreeOk() && BranchesOk(pending, q) && BranchOk(b, q)
      ensures more == pending + (if b.p in at then [b] else []) && BranchesOk(more, q)
      ensures var top := BranchHit(log, q, b);
              PendingHit(log, q, more) == if top.Some? then top else PendingHit(log, q, pending)
    {
      if b.p in at {
        PendingHitSnoc(log, q, pending, b);
        more := pending + [b];
      } else {
        AbsentBelow(b.p);
        NothingBelow(log, q, b.p, b.idx, b.caps);
        more := pending;
      }
    }

    /** The pending branches still hold the answer. */
    ghost predicate HitOk(work: seq<Branch>, q: Query)
      reads this`log
    {
      BranchesOk(work, q) && PendingHit(log, q, work) == Walk(log, q, [], 0, []).hit
    }

    /** They lie apart from each other and from every visited node, and no node was visited twice. */
    ghost predicate PathsOk(work: seq<Branch>, visits: seq<Shape>)
      reads this`at
    {
      && Separate(work, visits)
      && (forall i :: 0 <= i < |work| ==> work[i].p in at)
      && (forall i :: 0 <= i < |visits| ==> visits[i] in at)
      && (forall i, j :: 0 <= i < j < |visits| ==> visits[i] != visits[j])
    }

    /** What the walk keeps. */
    ghost predicate WorkOk(work: seq<Branch>, visits: seq<Shape>, q: Query)
      reads this`at, this`log
    {
      HitOk(work, q) && PathsOk(work, visits)
    }

    /** The branches that take the place of `b` once its node has been visited without a hit. */
    ghost function After(b: Branch, q: Query): (kids: seq<Branch>)
      reads this`at
    {
      if b.idx < |q.segs| then Kids(b, q) else []
    }

    /** Visiting a branch without a hit leaves the answer in the other branches and its children. */
    lemma StepKeepsHit(pending: seq<Branch>, b: Branch, q: Query)
      requires TreeOk() && BranchesOk(pending, q) && BranchOk(b, q)
      requires b.idx == |q.segs| ==> BranchHit(log, q, b).None?
      ensures BranchesOk(pending + After(b, q), q) && BranchesOk(pending + [b], q)
      ensures PendingHit(log, q, pending + After(b, q)) == PendingHit(log, q, pending + [b])
    {
      if b.idx < |q.segs| {
        ExpandHit(pending, b, q);
      } else {
        PendingHitSnoc(log, q, pending, b);
        assert pending + [] == pending;
      }
    }

    lemma StepKeepsPaths(pending: seq<Branch>, b: Branch, visits: seq<Shape>, q: Query)
      requires PathsOk(pending + [b], visits)
      ensures PathsOk(pending + After(b, q), visits + [b.p]) && b.p in at && b.p !in visits
    {
      var kids := After(b, q);
      KidsApart(b, q);
      ExpandSeparate(pending, b, kids, visits);
      assert (pending + [b])[|pending|] == b;
      assert forall i :: 0 <= i < |pending| ==> (pending + [b])[i] == pending[i];
      assert b.p !in visits;
      forall i | 0 <= i < |pending + kids| ensures (pending + kids)[i].p in at {
        assert i < |pending| ==> (pending + kids)[i] == pending[i];
      }
    }

    /** The branch to be visited next leads to a node that was not visited before. */
    lemma TopIsNew(pending: seq<Branch>, visits: seq<Shape>)
      requires PathsOk(pending, visits) && pending != []
      ensures var p := pending[|pending| - 1].p; p in at && p !in visits
    {
    }

    lemma WorkPop(pending: seq<Branch>, visits: seq<Shape>, q: Query)
      requires TreeOk() && WorkOk(pending, visits, q) && pending != []
      requires var b := pending[|pending| - 1]; b.idx == |q.segs| ==> BranchHit(log, q, b).None?
      ensures var b := pending[|pending| - 1];
              && WorkOk(pending[..|pending| - 1] + After(b, q), visits + [b.p], q)
              && b.p in at && b.p !in visits
    {
      var n := |pending| - 1;
      var front, b := pending[..n], pending[n];
      assert pending == front + [b];
      assert forall i :: 0 <= i < n ==> front[i] == pending[i];
      StepKeepsHit(front, b, q);
      StepKeepsPaths(front, b, visits, q);
    }

    /** The walk may visit more nodes than the path has segments, even on a hit. With a route for POST at the
        literal and one for GET at the parameter, a GET of the literal goes from the root to the literal
        node, which has neither an answer nor children, and only then to the parameter node. */
    lemma MoreVisitsThanSegments(a: string, post: Entry, get: Entry, q: Query)
      requires TreeOk() && log == [Route([Lit(a)], post), Route([One], get)]
      requires q.segs == [a] && q.verb == "GET" && post.methods == ["POST"]
      ensures var root, one, lit := Branch([], 0, []), Branch([One], 1, [a]), Branch([Lit(a)], 1, []);
              var kids := After(root, q);
              && |kids| >= 2 && kids[|kids| - 1] == lit && kids[|kids| - 2] == one
              && BranchOk(lit, q) && BranchHit(log, q, lit).None? && After(lit, q) == []
    {
      assert log[0] in log && log[1] in log;
      assert [] + [One] == [One] && [] + [Lit(a)] == [Lit(a)] && [] + [a] == [a];
      LitHasPost(a, post, get, q);
      CapturesSnoc([], Lit(a));
    }

    lemma LitHasPost(a: string, post: Entry, get: Entry, q: Query)
      requires log == [Route([Lit(a)], post), Route([One], get)] && post.methods == ["POST"] && q.verb == "GET"
      ensures FirstAnswer(EntriesAt(log, [Lit(a)]), [], q).None?
    {
      var one: Shape, lit: Shape := [One], [Lit(a)];
      assert one[0] != lit[0];
      var first := log[..1];
      assert first == [Route(lit, post)] && first[..0] == [];
      assert EntriesAt(first, lit) == EntriesAt(first[..0], lit) + [post];
      assert EntriesAt(log, lit) == EntriesAt(first, lit) + [] == [post];
      assert "GET"[0] != "POST"[0] && [post][..0] == [];
    }

    lemma KidsApart(b: Branch, q: Query)
      ensures var kids := After(b, q);
              && (forall i :: 0 <= i < |kids| ==> |kids[i].p| == |b.p| + 1 && b.p <= kids[i].p && kids[i].p in at)
              && (forall i, j :: 0 <= i < j < |kids| ==> kids[i].p != kids[j].p)
    {
      if b.idx < |q.segs| {
        var n := |b.p|;
        assert (b.p + [Rest])[n].Rest? && (b.p + [One])[n].One? && (b.p + [Lit(q.segs[b.idx])])[n].Lit?;
      }
    }

    /** Below an inner node: where to go on, and the lower-priority alternatives to push first. */
    method Descent(f: Frame, segments: seq<string>, ghost b: Branch, ghost start: nat, ghost q: Query)
      returns (pushed: seq<Frame>, next: Option<Frame>)
      requires TreeOk() && FrameOk(f, b, start) && BranchOk(b, q) && b.idx < |q.segs|
      requires start <= |segments| && segments[start..] == q.segs
      ensures FramesOk(pushed + Tip(next), Kids(b, q), start)
    {
      assert NodeOk(b.p);
      var n, seg := |segments|, segments[f.idx];
      assert |q.segs| == n - start && seg == q.segs[b.idx] && segments[f.idx..] == q.segs[b.idx..];
      var rest := Join(segments[f.idx..]);
      var child := f.node.Child(Lit(seg));
      var pc, wc := f.node.Child(One), f.node.Child(Rest);
      pushed := [];
      if child != null {
        if wc != null {
          pushed := pushed + [Frame(wc, n, f.caps + [rest])];
        }
        if pc != null {
          pushed := pushed + [Frame(pc, f.idx + 1, f.caps + [seg])];
        }
        return pushed, Some(Frame(child, f.idx + 1, f.caps));
      }
      if pc != null {
        if wc != null {
          pushed := pushed + [Frame(wc, n, f.caps + [rest])];
        }
        return pushed, Some(Frame(pc, f.idx + 1, f.caps + [seg]));
      }
      next := if wc != null then Some(Frame(wc, n, f.caps + [rest])) else None;
    }

    /** At the current frame: match the entries at the end of the path, or descend. */
    method Visit(f: Frame, segments: seq<string>, verb: string, scheme: Scheme,
                 ghost b: Branch, ghost start: nat, ghost q: Query)
      returns (hit: Option<Hit>, pushed: seq<Frame>, next: Option<Frame>)
      requires TreeOk() && Asks(q, verb, scheme) && FrameOk(f, b, start) && BranchOk(b, q)
      requires start <= |segments| && segments[start..] == q.segs
      ensures hit.Some? || b.idx == |q.segs| ==> hit == BranchHit(log, q, b)
      ensures FramesOk(pushed + Tip(next), After(b, q), start)
    {
      assert |q.segs| == |segments| - start;
      hit, pushed, next := None, [], None;
      if f.idx == |segments| {
        assert NodeOk(b.p);
        EntriesHaveArity(log, b.p);
        hit := MatchEntries(f.node.entries, f.caps, verb, scheme, q);
      } else {
        pushed, next := Descent(f, segments, b, start, q);
      }
    }

    lemma FramesJoin(stack: seq<Frame>, cur: Frame, more: seq<Frame>, pending: seq<Branch>, kids: seq<Branch>, start: nat)
      requires FramesOk(stack + [cur], pending, start) && FramesOk(more, kids, start)
      ensures |pending| == |stack| + 1 && FramesOk(stack + more, pending[..|stack|] + kids, start)
    {
      var n := |stack|;
      forall i | 0 <= i < n + |more| ensures FrameOk((stack + more)[i], (pending[..n] + kids)[i], start) {
        if i < n {
          assert (stack + [cur])[i] == stack[i];
        }
      }
    }

    /** One turn of the walk; at a dead end it goes back to the alternative pushed last. */
    method Turn(cur: Frame, stack: seq<Frame>, segments: seq<string>, verb: string, scheme: Scheme,
                ghost pending: seq<Branch>, ghost visits: seq<Shape>, ghost start: nat, ghost q: Query)
      returns (hit: Option<Hit>, next: Option<Frame>, stack': seq<Frame>, ghost pending': seq<Branch>, ghost p: Shape)
      requires TreeOk() && Asks(q, verb, scheme) && FramesOk(stack + [cur], pending, start) && WorkOk(pending, visits, q)
      requires start <= |segments| && segments[start..] == q.segs
      ensures hit.Some? ==> hit == Walk(log, q, [], 0, []).hit
      ensures hit.None? ==> FramesOk(stack' + Tip(next), pending', start) && WorkOk(pending', visits + [p], q)
      ensures p in at && p !in visits && (hit.None? && next.None? ==> stack' == [])
    {
      ghost var n := |stack|;
      ghost var b := pending[n];
      assert (stack + [cur])[n] == cur;
      var pushed;
      hit, pushed, next := Visit(cur, segments, verb, scheme, b, start, q);
      p, pending', stack' := b.p, pending[..n] + After(b, q), stack + pushed;
      TopIsNew(pending, visits);
      if hit.Some? {
        return;
      }
      WorkPop(pending, visits, q);
      FramesJoin(stack, cur, pushed + Tip(next), pending, After(b, q), start);
      Reassociate(stack, pushed, Tip(next));
      if next.None? && stack' != [] {
        var top := |stack'| - 1;
        PopTip(stack');
        next, stack' := Some(stack'[top]), stack'[..top];
      }
    }

    /** The iterative depth-first walk with its explicit stack. Every turn visits one node, and no
        node is visited twice, so there are at most as many turns as nodes. */
    method WalkLoop(segments: seq<string>, start: nat, verb: string, scheme: Scheme, ghost q: Query)
      returns (hit: Option<Hit>, ghost visits: seq<Shape>)
      requires TreeOk() && Asks(q, verb, scheme)
      requires start <= |segments| && segments[start..] == q.segs
      ensures hit == Walk(log, q, [], 0, []).hit
      ensures forall i :: 0 <= i < |visits| ==> visits[i] in at
      ensures forall i, j :: 0 <= i < j < |visits| ==> visits[i] != visits[j]
      ensures |visits| <= |at|
    {
      var cur := Frame(root, start, []);
      var stack: seq<Frame> := [];
      ghost var pending := [Branch([], 0, [])];
      ghost var unvisited := at.Keys;
      visits := [];
      while true
        invariant FramesOk(stack + [cur], pending, start) && WorkOk(pending, visits, q)
        invariant forall p :: p in at && p !in visits ==> p in unvisited
        decreases unvisited
      {
        var next;
        ghost var p;
        hit, next, stack, pending, p := Turn(cur, stack, segments, verb, scheme, pending, visits, start, q);
        visits, unvisited := visits + [p], unvisited - {p};
        if hit.Some? || next.None? {
          break;
        }
        cur := next.value;
      }
      DistinctFit(visits, at.Keys);
    }

    /** The request that a path, a method and a scheme stand for. */
    ghost function QueryFor(path: string, verb: string, scheme: Scheme): (q: Query) {
      Query(Segments(path), verb, scheme, conv)
    }

    /** The dictionary probe: only an answer that the walk would give as well. */
    method Probe(path: string, verb: string, scheme: Scheme) returns (hit: Option<Hit>)
      requires Valid()
      ensures hit.Some? ==> hit == Walk(log, QueryFor(path, verb, scheme), [], 0, []).hit
    {
      hit := None;
      if path in staticFull {
        ghost var q := QueryFor(path, verb, scheme);
        ghost var p := AllLit(q.segs);
        assert NodeOk(p);
        EntriesHaveArity(log, p);
        AllLitCaptures(q.segs);
        hit := MatchEntries(staticFull[path].entries, [], verb, scheme, q);
        if hit.Some? {
          StaticFirst(log, q, 0);
        }
      }
    }

    /** `lookup`: the dictionary probe, then the iterative walk, then the recursive walk for the
        allowed methods. It answers what a scan of the registrations answers. */
    method Lookup(path: string, verb: string, scheme: Scheme) returns (o: Outcome)
      requires Valid()
      ensures o == ScanOutcome(log, QueryFor(path, verb, scheme))
    {
      ghost var q := QueryFor(path, verb, scheme);
      WalkIsScan(log, q);
      var hit := Probe(path, verb, scheme);
      if hit.Some? {
        return Outcome(hit, {});
      }
      var segments, start;
      if path == "" || path[|path| - 1] == '/' || !NoDoubleSlash(path) {
        segments, start := Segments(path), 0;
      } else {
        CanonicalSegments(path);
        segments, start := Split(path), if path[0] == '/' then 1 else 0;
      }
      ghost var visits;
      hit, visits := WalkLoop(segments, start, verb, scheme, q);
      if hit.Some? {
        return Outcome(hit, {});
      }
      o := LookupFrom(root, segments, start, [], verb, scheme, [], start, q);
    }
  }

  lemma PopTip(stack: seq<Frame>)
    requires stack != []
    ensures stack[..|stack| - 1] + Tip(Some(stack[|stack| - 1])) == stack + Tip(None)
  {
  }

  lemma Reassociate<T>(a: seq<T>, b: seq<T>, c: seq<T>)
    ensures a + (b + c) == a + b + c
  {
  }

  lemma Regroup<T>(p: seq<T>, a: seq<T>, b: seq<T>, c: seq<T>)
    ensures p + (a + b + c) == p + a + b + c
  {
  }

  lemma {:induction false} DistinctFit(visits: seq<Shape>, all: set<Shape>)
    requires forall i :: 0 <= i < |visits| ==> visits[i] in all
    requires forall i, j :: 0 <= i < j < |visits| ==> visits[i] != visits[j]
    ensures |visits| <= |all|
  {
    if visits != [] {
      var n := |visits| - 1;
      DistinctFit(visits[..n], all - {visits[n]});
    }
  }

  lemma {:induction false} AllLitCaptures(segs: seq<string>)
    ensures Captures(AllLit(segs)) == 0
  {
    if segs != [] {
      AllLitCaptures(segs[..|segs| - 1]);
      assert AllLit(segs)[..|segs| - 1] == AllLit(segs[..|segs| - 1]);
    }
  }

  lemma PendingHitSnoc(log: seq<Route>, q: Query, pending: seq<Branch>, b: Branch)
    requires BranchesOk(pending, q) && BranchOk(b, q)
    ensures BranchesOk(pending + [b], q)
    ensures var top := BranchHit(log, q, b);
            PendingHit(log, q, pending + [b]) == if top.Some? then top else PendingHit(log, q, pending)
  {
    assert (pending + [b])[..|pending|] == pending;
  }

  /** Visiting a branch and queueing its children keeps the branches apart. */
  lemma ExpandSeparate(pending: seq<Branch>, b: Branch, kids: seq<Branch>, visits: seq<Shape>)
    requires Separate(pending + [b], visits)
    requires forall i :: 0 <= i < |kids| ==> |kids[i].p| == |b.p| + 1 && b.p <= kids[i].p
    requires forall i, j :: 0 <= i < j < |kids| ==> kids[i].p != kids[j].p
    ensures b.p !in visits
    ensures Separate(pending + kids, visits + [b.p])
  {
    var was, now := pending + [b], pending + kids;
    assert was[|pending|] == b;
    assert forall i :: 0 <= i < |pending| ==> was[i] == pending[i] == now[i];
    assert forall i :: |pending| <= i < |now| ==> now[i] == kids[i - |pending|];
    forall i, j | 0 <= i < |now| && 0 <= j < |now| && i != j ensures !(now[i].p <= now[j].p) {
    }
    forall i, v | 0 <= i < |now| && v in visits + [b.p] ensures !(now[i].p <= v) {
    }
  }

  lemma {:induction false} BindPrefix(specs: seq<Spec>, caps: seq<string>, conv: Convert, j: nat)
    requires |specs| == |caps| && j <= |specs| && Bind(specs[..j], caps[..j], conv).None?
    ensures Bind(specs, caps, conv).None?
    decreases |specs|
  {
    var n := |specs|;
    if j == n {
      assert specs[..j] == specs && caps[..j] == caps;
    } else {
      assert specs[..n - 1][..j] == specs[..j] && caps[..n - 1][..j] == caps[..j];
      BindPrefix(specs[..n - 1], caps[..n - 1], conv, j);
    }
  }

  lemma {:induction false} FirstAnswerPrefix(entries: seq<Entry>, caps: seq<string>, q: Query, i: nat)
    requires i <= |entries| && FirstAnswer(entries[..i], caps, q).Some?
    ensures FirstAnswer(entries, caps, q) == FirstAnswer(entries[..i], caps, q)
    decreases |entries|
  {
    var n := |entries|;
    if i == n {
      assert entries[..i] == entries;
    } else {
      assert entries[..n - 1][..i] == entries[..i];
      FirstAnswerPrefix(entries[..n - 1], caps, q, i);
    }
  }

  lemma FittingMethodsSnoc(entries: seq<Entry>, e: Entry, caps: seq<string>, q: Query)
    ensures FittingMethods(entries + [e], caps, q)
         == FittingMethods(entries, caps, q) + (if Fits(e, caps, q) then set m | m in e.methods else {})
  {
    assert forall x :: x in entries + [e] <==> x in entries || x == e;
  }

  /** At a terminal, every entry has as many specs as the walk has captures. */
  lemma EntriesHaveArity(log: seq<Route>, p: Shape)
    requires forall r :: r in log ==> |r.entry.specs| == Captures(r.shape)
    ensures forall e :: e in EntriesAt(log, p) ==> |e.specs| == Captures(p)
  {
    forall e | e in EntriesAt(log, p) ensures |e.specs| == Captures(p) {
      EntriesAtMembers(log, p, e);
      assert Route(p, e) in log;
    }
  }

  /** The registration that a template stands for. */
  function RouteFor(path: string, methods: seq<string>, scheme: SchemeKey, handler: nat): (r: Route) {
    Route(ShapeOf(Segments(path)), Entry(methods, scheme, handler, SpecsOf(Segments(path))))
  }
}
