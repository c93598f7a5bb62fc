/** Reading a route template: which trie steps and parameter specs its segments stand for. */
module Templates {
  import opened Routes

  /** `seg.startswith('{') and seg.endswith('}')`. */
  predicate Braced(seg: string) {
    |seg| >= 2 && seg[0] == '{' && seg[|seg| - 1] == '}'
  }

  /** The part before the first colon, as `str.partition(':')` cuts it. */
  function BeforeColon(s: string): (name: string) {
    if s == "" || s[0] == ':' then "" else [s[0]] + BeforeColon(s[1..])
  }

  /** The part after the first colon, empty when there is none. */
  function AfterColon(s: string): (spec: string) {
    if s == "" then "" else if s[0] == ':' then s[1..] else AfterColon(s[1..])
  }

  function ParamName(seg: string): (name: string)
    requires Braced(seg)
  {
    BeforeColon(seg[1..|seg| - 1])
  }

  function ParamSpec(seg: string): (spec: string)
    requires Braced(seg)
  {
    var spec := AfterColon(seg[1..|seg| - 1]);
    if spec == "" then "str" else spec
  }

  /** The converter table, with the trie's own default for an unknown name. */
  function ConverterOf(spec: string): (conv: Converter) {
    if spec == "int" then IntConv
    else if spec == "uuid" then UuidConv
    else if spec == "path" then PathConv
    else StrConv
  }

  function StepOf(seg: string): (step: Step) {
    if !Braced(seg) then Lit(seg) else if ParamSpec(seg) == "path" then Rest else One
  }

  function SpecOf(seg: string): (spec: Spec)
    requires Braced(seg)
  {
    Spec(ParamName(seg), ConverterOf(ParamSpec(seg)), ParamSpec(seg) == "path")
  }

  function ShapeOf(segs: seq<string>): (shape: Shape)
    ensures |shape| == |segs|
    ensures forall i :: 0 <= i < |segs| ==> shape[i] == StepOf(segs[i])
  {
    seq(|segs|, i requires 0 <= i < |segs| => StepOf(segs[i]))
  }

  function SpecsOf(segs: seq<string>): (specs: seq<Spec>) {
    if segs == [] then []
    else
      var n := |segs| - 1;
      SpecsOf(segs[..n]) + (if Braced(segs[n]) then [SpecOf(segs[n])] else [])
  }

  /** Exactly the specs of the `path` converter are marked as wildcards. */
  lemma {:induction false} WildcardsMarked(segs: seq<string>)
    ensures forall i :: 0 <= i < |SpecsOf(segs)| ==> (SpecsOf(segs)[i].wildcard <==> SpecsOf(segs)[i].conv.PathConv?)
  {
    if segs != [] {
      WildcardsMarked(segs[..|segs| - 1]);
    }
  }

  /** A wildcard may only be the last segment. */
  predicate WildcardLast(segs: seq<string>) {
    forall i :: 0 <= i < |segs| - 1 ==> !StepOf(segs[i]).Rest?
  }

  /** How many captures a walk down a shape collects. */
  function Captures(shape: Shape): (n: nat) {
    if shape == [] then 0
    else Captures(shape[..|shape| - 1]) + (if shape[|shape| - 1].Lit? then 0 else 1)
  }

  lemma CapturesSnoc(p: Shape, x: Step)
    ensures Captures(p + [x]) == Captures(p) + (if x.Lit? then 0 else 1)
  {
    assert (p + [x])[..|p|] == p;
  }

  function AllLit(segs: seq<string>): (shape: Shape) {
    seq(|segs|, i requires 0 <= i < |segs| => Lit(segs[i]))
  }

  /** Every template yields as many parameter specs as its shape yields captures. */
  lemma {:induction false} SpecsMatchCaptures(segs: seq<string>)
    ensures |SpecsOf(segs)| == Captures(ShapeOf(segs))
  {
    if segs != [] {
      var n := |segs| - 1;
      SpecsMatchCaptures(segs[..n]);
      assert ShapeOf(segs)[..n] == ShapeOf(segs[..n]);
    }
  }

  lemma ShapeCons(seg: string, rest: seq<string>)
    ensures ShapeOf([seg] + rest) == [StepOf(seg)] + ShapeOf(rest)
  {
  }

  lemma ShapeSnoc(segs: seq<string>, i: nat)
    requires i < |segs|
    ensures ShapeOf(segs[..i + 1]) == ShapeOf(segs[..i]) + [StepOf(segs[i])]
    ensures SpecsOf(segs[..i + 1]) == SpecsOf(segs[..i]) + (if Braced(segs[i]) then [SpecOf(segs[i])] else [])
  {
    assert segs[..i + 1][..i] == segs[..i];
  }

  /** A template without parameter specs is all literal. */
  lemma {:induction false} NoSpecsMeansStatic(segs: seq<string>)
    ensures SpecsOf(segs) == [] <==> forall s :: s in segs ==> !Braced(s)
    ensures SpecsOf(segs) == [] ==> ShapeOf(segs) == AllLit(segs)
  {
    if segs != [] {
      var n := |segs| - 1;
      NoSpecsMeansStatic(segs[..n]);
      assert segs == segs[..n] + [segs[n]];
    }
  }
}
