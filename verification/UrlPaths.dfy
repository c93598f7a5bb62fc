/** Building the URL of a named route, and why routing it leads back to that route. */
module UrlPaths {
  import opened Options
  import opened Paths
  import opened Routes
  import opened Templates
  import opened RouteTries
  import opened Placeholders

  datatype UrlResult = Url(path: string) | UnknownRoute | MissingParams(names: set<string>)

  /** `url_path_for`; the parameters are given by the text that `str` makes of them. */
  function UrlPathFor(named: map<string, string>, name: string, texts: map<string, string>): (r: UrlResult) {
    if name !in named then UnknownRoute
    else
      var missing := NamesIn(named[name]) - texts.Keys;
      if missing != {} then MissingParams(missing) else Url(Substitute(named[name], texts))
  }

  // ---- Substitution works piece by piece --------------------------------------------------

  lemma {:induction false} WordRunAtSlash(a: string, b: string)
    ensures WordRun(a + "/" + b) == WordRun(a)
  {
    if a != "" {
      assert (a + "/" + b)[1..] == a[1..] + "/" + b;
      WordRunAtSlash(a[1..], b);
    }
  }

  lemma IdentAtSlash(a: string, b: string)
    ensures IdentLen(a + "/" + b) == IdentLen(a)
  {
    WordRunAtSlash(a, b);
  }

  /** A placeholder never spans a slash. */
  lemma MatchAtSlash(a: string, b: string)
    ensures MatchLen(a + "/" + b) == MatchLen(a)
    ensures MatchLen(a) > 0 ==> NameIn(a + "/" + b) == NameIn(a)
  {
    var s := a + "/" + b;
    if a != "" && a[0] == '{' {
      assert s[1..] == a[1..] + "/" + b;
      IdentAtSlash(a[1..], b);
      var name := IdentLen(a[1..]);
      var rest := a[1 + name..];
      assert s[1 + name..] == rest + "/" + b;
      if rest != "" {
        assert (rest + "/" + b)[1..] == rest[1..] + "/" + b;
        IdentAtSlash(rest[1..], b);
      }
    }
  }

  lemma Regroup(a: string, b: string, c: string)
    ensures a + (b + "/" + c) == a + b + "/" + c
  {
  }

  lemma {:induction false} SubstituteAtSlash(a: string, b: string, texts: map<string, string>)
    ensures Substitute(a + "/" + b, texts) == Substitute(a, texts) + "/" + Substitute(b, texts)
    decreases |a|
  {
    var s := a + "/" + b;
    if a == "" {
      assert s[1..] == b;
    } else {
      StepAtSlash(a, b, texts);
      var k := Skip(a);
      assert s[k..] == a[k..] + "/" + b;
      SubstituteAtSlash(a[k..], b, texts);
      Regroup(Head(a, texts), Substitute(a[k..], texts), Substitute(b, texts));
    }
  }

  lemma StepAtSlash(a: string, b: string, texts: map<string, string>)
    requires a != ""
    ensures Skip(a + "/" + b) == Skip(a) && Head(a + "/" + b, texts) == Head(a, texts)
  {
    MatchAtSlash(a, b);
    assert (a + "/" + b)[0] == a[0];
  }

  /** The pieces of a template after substitution. */
  function Rendered(pieces: seq<string>, texts: map<string, string>): (out: seq<string>)
  {
    if pieces == [] then [] else [Substitute(pieces[0], texts)] + Rendered(pieces[1..], texts)
  }

  lemma {:induction false} SubstituteJoin(pieces: seq<string>, texts: map<string, string>)
    requires pieces != []
    ensures Substitute(Join(pieces), texts) == Join(Rendered(pieces, texts))
  {
    if |pieces| > 1 {
      SubstituteJoin(pieces[1..], texts);
      SubstituteAtSlash(pieces[0], Join(pieces[1..]), texts);
      assert Rendered(pieces, texts)[1..] == Rendered(pieces[1..], texts);
    }
  }

  // ---- Segments of a joined path ------------------------------------------------------------

  lemma SegmentsAppend(a: string, b: string)
    ensures Segments(a + "/" + b) == Segments(a) + Segments(b)
  {
    SplitAppend(a, b);
    DropEmptyAppend(Split(a), Split(b));
  }

  /** The segments that a template segment contributes to the URL. */
  function Contribution(seg: string, texts: map<string, string>): (segs: seq<string>)
  {
    Segments(Substitute(seg, texts))
  }

  function Contributions(segs: seq<string>, texts: map<string, string>): (out: seq<string>)
  {
    if segs == [] then [] else Contribution(segs[0], texts) + Contributions(segs[1..], texts)
  }

  lemma {:induction false} SegmentsOfRendered(pieces: seq<string>, texts: map<string, string>)
    requires pieces != []
    ensures Segments(Join(Rendered(pieces, texts))) == Contributions(DropEmpty(pieces), texts)
  {
    var out := Rendered(pieces, texts);
    var head := Contribution(pieces[0], texts);
    assert Rendered([], texts) == [] && DropEmpty([]) == [];
    if |pieces| == 1 {
      assert pieces[1..] == [];
      assert Segments(Join(out)) == head;
    } else {
      SegmentsOfRendered(pieces[1..], texts);
      assert out[1..] == Rendered(pieces[1..], texts);
      SegmentsAppend(out[0], Join(out[1..]));
      assert Segments(Join(out)) == head + Contributions(DropEmpty(pieces[1..]), texts);
    }
    ContributionsCons(pieces, texts);
  }

  lemma ContributionsCons(pieces: seq<string>, texts: map<string, string>)
    requires pieces != []
    ensures Contributions(DropEmpty(pieces), texts)
         == Contribution(pieces[0], texts) + Contributions(DropEmpty(pieces[1..]), texts)
  {
    if pieces[0] == "" {
      var rest := DropEmpty(pieces[1..]);
      assert DropEmpty(pieces) == rest && Contribution("", texts) == [];
      assert [] + Contributions(rest, texts) == Contributions(rest, texts);
    } else {
      var kept := [pieces[0]] + DropEmpty(pieces[1..]);
      assert DropEmpty(pieces) == kept && kept[1..] == DropEmpty(pieces[1..]);
      assert Contributions(kept, texts) == Contribution(pieces[0], texts) + Contributions(kept[1..], texts);
    }
  }

  /** The segments of the URL are those that the template's segments contribute. */
  lemma UrlSegments(template: string, texts: map<string, string>)
    ensures Segments(Substitute(template, texts)) == Contributions(Segments(template), texts)
  {
    var pieces := Split(template);
    JoinSplit(template);
    SubstituteJoin(pieces, texts);
    SegmentsOfRendered(pieces, texts);
  }

  // ---- Matching the URL against the template's shape ---------------------------------------

  /** A segment that is one placeholder, or plain text without any. */
  predicate WholeSegment(seg: string) {
    if MatchLen(seg) > 0 then MatchLen(seg) == |seg| else !Braced(seg) && NamesIn(seg) == {}
  }

  lemma {:induction false} IdentBeforeColon(s: string, n: nat)
    requires n <= WordRun(s) && (n == |s| || s[n] == ':')
    ensures BeforeColon(s) == s[..n]
    ensures AfterColon(s) == if n == |s| then "" else s[n + 1..]
  {
    if n > 0 {
      IdentBeforeColon(s[1..], n - 1);
      assert s[..n] == [s[0]] + s[1..][..n - 1];
    }
  }

  /** On a whole placeholder the pattern and the trie read the same name and converter. */
  lemma PlaceholderReadAlike(seg: string)
    requires MatchLen(seg) == |seg| > 0
    ensures Braced(seg) && NameIn(seg) == ParamName(seg) && SpecIn(seg) == ParamSpec(seg)
  {
    var name := IdentLen(seg[1..]);
    var inner := seg[1..|seg| - 1];
    assert forall i :: 0 <= i < |inner| ==> inner[i] == seg[1 + i];
    WordRunPrefix(seg[1..], inner, name);
    IdentBeforeColon(inner, name);
  }

  lemma {:induction false} WordRunPrefix(s: string, t: string, n: nat)
    requires t <= s && n <= WordRun(s) && n <= |t|
    ensures n <= WordRun(t)
  {
    if n > 0 {
      WordRunPrefix(s[1..], t[1..], n - 1);
    }
  }

  predicate WholeSegments(segs: seq<string>) { forall s :: s in segs ==> WholeSegment(s) }

  /** Texts that fill their segments: one clean segment, or for `path` a slash-joined list. */
  predicate Fills(seg: string, text: string)
    requires Braced(seg)
  {
    if StepOf(seg).Rest? then text != "" && Segments(text) != [] && Join(Segments(text)) == text
    else text != "" && SlashFree(text)
  }

  predicate TextsFill(segs: seq<string>, texts: map<string, string>) {
    forall s :: s in segs && Braced(s) ==> ParamName(s) in texts && Fills(s, texts[ParamName(s)])
  }

  lemma NamesSplit(s: string)
    requires s != ""
    ensures NamesIn(s) == NamesHere(s) + NamesIn(s[Skip(s)..])
    ensures MatchLen(s) > 0 ==> NamesIn(s) != {}
  {
    if MatchLen(s) > 0 {
      assert NameIn(s) in NamesIn(s);
    }
  }

  lemma {:induction false} NoNamesNoChange(s: string, texts: map<string, string>)
    requires NamesIn(s) == {}
    ensures Substitute(s, texts) == s
  {
    if s != "" {
      NamesSplit(s);
      assert MatchLen(s) == 0;
      NoNamesNoChange(s[1..], texts);
      assert [s[0]] + s[1..] == s;
    }
  }

  lemma SegmentsWhole(s: string)
    requires s != "" && SlashFree(s)
    ensures Segments(s) == [s]
  {
    SplitWhole(s);
    DropEmptyIdentity([s]);
  }

  /** The text that fills a segment. */
  function TextOf(seg: string, texts: map<string, string>): (text: string) {
    if Braced(seg) && ParamName(seg) in texts then texts[ParamName(seg)] else ""
  }

  /** What a segment with a given step and text adds to the URL. */
  predicate Contributes(x: Step, head: seq<string>, text: string) {
    match x
    case Lit(t) => head == [t]
    case One => head == [text]
    case Rest => head == Segments(text) != [] && Join(head) == text
  }

  lemma ContributionOf(seg: string, texts: map<string, string>)
    requires seg != "" && SlashFree(seg) && WholeSegment(seg)
    requires Braced(seg) ==> ParamName(seg) in texts && Fills(seg, texts[ParamName(seg)])
    ensures Contributes(StepOf(seg), Contribution(seg, texts), TextOf(seg, texts))
  {
    if Braced(seg) {
      PlaceholderReadAlike(seg);
      assert seg[|seg|..] == "" && Substitute("", texts) == "";
      var text := texts[ParamName(seg)];
      assert Substitute(seg, texts) == text + "" == text;
      if StepOf(seg).One? {
        SegmentsWhole(text);
      }
    } else {
      NoNamesNoChange(seg, texts);
      SegmentsWhole(seg);
    }
  }

  /** The captures that routing the URL yields: the texts, in template order. */
  function CapturedTexts(segs: seq<string>, texts: map<string, string>): (caps: seq<string>) {
    if segs == [] then []
    else
      var n := |segs| - 1;
      CapturedTexts(segs[..n], texts) + (if Braced(segs[n]) then [TextOf(segs[n], texts)] else [])
  }

  lemma {:induction false} CapturedCons(seg: string, rest: seq<string>, texts: map<string, string>)
    ensures CapturedTexts([seg] + rest, texts)
         == (if Braced(seg) then [TextOf(seg, texts)] else []) + CapturedTexts(rest, texts)
  {
    var segs := [seg] + rest;
    if rest == [] {
      assert segs[..0] == [];
    } else {
      var n := |rest| - 1;
      assert segs[..n + 1] == [seg] + rest[..n];
      CapturedCons(seg, rest[..n], texts);
    }
  }

  /** Templates whose URLs the round trip covers. */
  ghost predicate Routable(segs: seq<string>, texts: map<string, string>) {
    Clean(segs) && WholeSegments(segs) && TextsFill(segs, texts) && WildcardLast(segs)
  }

  lemma RoutableTail(segs: seq<string>, texts: map<string, string>)
    requires Routable(segs, texts) && segs != []
    ensures Routable(segs[1..], texts) && (StepOf(segs[0]).Rest? ==> segs[1..] == [])
  {
    var rest := segs[1..];
    assert forall s :: s in rest ==> s in segs;
    assert forall i :: 0 <= i < |rest| ==> rest[i] == segs[i + 1];
  }

  lemma {:induction false} UrlMatches(segs: seq<string>, texts: map<string, string>)
    requires Routable(segs, texts)
    ensures Match(ShapeOf(segs), Contributions(segs, texts)) == Some(CapturedTexts(segs, texts))
  {
    if segs != [] {
      var seg, rest := segs[0], segs[1..];
      RoutableTail(segs, texts);
      UrlMatches(rest, texts);
      assert Contributes(StepOf(seg), Contribution(seg, texts), TextOf(seg, texts)) by {
        assert seg in segs;
        ContributionOf(seg, texts);
      }
      UrlMatchesCons(seg, rest, texts);
      assert segs == [seg] + rest;
    }
  }

  lemma UrlMatchesCons(seg: string, rest: seq<string>, texts: map<string, string>)
    requires Contributes(StepOf(seg), Contribution(seg, texts), TextOf(seg, texts)) && (StepOf(seg).Rest? ==> rest == [])
    requires Match(ShapeOf(rest), Contributions(rest, texts)) == Some(CapturedTexts(rest, texts))
    ensures Match(ShapeOf([seg] + rest), Contributions([seg] + rest, texts)) == Some(CapturedTexts([seg] + rest, texts))
  {
    CapturedCons(seg, rest, texts);
    ShapeCons(seg, rest);
    assert ([seg] + rest)[1..] == rest;
    UrlStep(StepOf(seg), Contribution(seg, texts), TextOf(seg, texts),
            ShapeOf(rest), Contributions(rest, texts), CapturedTexts(rest, texts));
  }

  /** One step of the shape against what its segment contributes. */
  lemma UrlStep(x: Step, head: seq<string>, text: string, shape: Shape, more: seq<string>, caps: seq<string>)
    requires Contributes(x, head, text) && (x.Rest? ==> shape == [] && more == [])
    requires Match(shape, more) == Some(caps)
    ensures Match([x] + shape, head + more) == Some((if x.Lit? then [] else [text]) + caps)
  {
    if x.Rest? {
      assert caps == [];
      WildcardMatches(text);
    } else {
      StepMatches(x, head[0], shape, more);
    }
  }

  lemma WildcardMatches(text: string)
    requires Segments(text) != [] && Join(Segments(text)) == text
    ensures Match([Rest] + [], Segments(text) + []) == Some([text] + [])
  {
    assert Segments(text) + [] == Segments(text) && [Rest] + [] == [Rest] && [text] + [] == [text];
  }

  lemma StepMatches(x: Step, head: string, shape: Shape, segs: seq<string>)
    requires x == One || x == Lit(head)
    ensures var tail := Match(shape, segs);
            Match([x] + shape, [head] + segs) ==
            if tail.None? then None else Some((if x.One? then [head] else []) + tail.value)
  {
    assert ([x] + shape)[1..] == shape && ([head] + segs)[1..] == segs;
    if Match(shape, segs).Some? {
      assert [] + Match(shape, segs).value == Match(shape, segs).value;
    }
  }

  /** The values that the texts stand for, under the route's own converters. */
  predicate Inverts(segs: seq<string>, texts: map<string, string>, values: Params, conv: Convert)
    requires TextsFill(segs, texts)
  {
    forall s :: s in segs && Braced(s) ==>
      ParamName(s) in values && conv(SpecOf(s).conv, texts[ParamName(s)]) == Some(values[ParamName(s)])
  }

  function NamesOf(segs: seq<string>): (names: set<string>) {
    set s | s in segs && Braced(s) :: ParamName(s)
  }

  function ValuesFor(segs: seq<string>, values: Params): (params: Params)
    requires NamesOf(segs) <= values.Keys
  {
    map name | name in NamesOf(segs) :: values[name]
  }

  lemma {:induction false} UrlBinds(segs: seq<string>, texts: map<string, string>, values: Params, conv: Convert)
    requires TextsFill(segs, texts) && Inverts(segs, texts, values, conv)
    ensures NamesOf(segs) <= values.Keys && |SpecsOf(segs)| == |CapturedTexts(segs, texts)|
    ensures Bind(SpecsOf(segs), CapturedTexts(segs, texts), conv) == Some(ValuesFor(segs, values))
  {
    if segs != [] {
      var n := |segs| - 1;
      var front, seg := segs[..n], segs[n];
      UrlBinds(front, texts, values, conv);
      assert segs == front + [seg];
      NamesSnoc(front, seg, values);
      if Braced(seg) {
        BindSnoc(SpecsOf(front), SpecOf(seg), CapturedTexts(front, texts), TextOf(seg, texts), conv);
      } else {
        assert SpecsOf(segs) == SpecsOf(front) && CapturedTexts(segs, texts) == CapturedTexts(front, texts);
      }
    }
  }

  lemma BindSnoc(specs: seq<Spec>, spec: Spec, caps: seq<string>, cap: string, conv: Convert)
    requires |specs| == |caps|
    ensures var before, last := Bind(specs, caps, conv), conv(spec.conv, cap);
            Bind(specs + [spec], caps + [cap], conv) ==
            if before.None? || last.None? then None else Some(before.value[spec.name := last.value])
  {
    assert (specs + [spec])[..|specs|] == specs && (caps + [cap])[..|specs|] == caps;
  }

  lemma NamesSnoc(front: seq<string>, seg: string, values: Params)
    requires NamesOf(front) <= values.Keys && (Braced(seg) ==> ParamName(seg) in values)
    ensures NamesOf(front + [seg]) == NamesOf(front) + (if Braced(seg) then {ParamName(seg)} else {})
    ensures ValuesFor(front + [seg], values)
         == if Braced(seg) then ValuesFor(front, values)[ParamName(seg) := values[ParamName(seg)]]
            else ValuesFor(front, values)
  {
    assert forall s :: s in front + [seg] <==> s in front || s == seg;
  }

  /** Routing the URL of a registered template: the template's own route serves it with exactly
      those parameters, so the route chosen is that one or one that beats it. */
  lemma UrlRoundTrip(log: seq<Route>, i: nat, named: map<string, string>, name: string, methods: seq<string>,
                     scheme: SchemeKey, handler: nat, texts: map<string, string>, values: Params, q: Query)
    requires name in named && i < |log| && log[i] == RouteFor(named[name], methods, scheme, handler)
    requires WildcardLast(Segments(named[name])) && WholeSegments(Segments(named[name]))
    requires TextsFill(Segments(named[name]), texts) && Inverts(Segments(named[name]), texts, values, q.conv)
    requires var url := UrlPathFor(named, name, texts); url.Url? && q.segs == Segments(url.path)
    requires q.verb in methods && SchemeMatches(q.scheme, scheme)
    ensures Serves(log[i], q)
    ensures NamesOf(Segments(named[name])) <= values.Keys
    ensures HitFrom(log[i], q) == Hit(handler, ValuesFor(Segments(named[name]), values))
    ensures var k := Pick(log, q); k.Some? && (k.value == i || Beats(log, k.value, i))
  {
    var segs := Segments(named[name]);
    SegmentsClean(named[name]);
    UrlSegments(named[name], texts);
    UrlMatches(segs, texts);
    UrlBinds(segs, texts, values, q.conv);
    PickIsBest(log, q);
    assert log[i] in log;
  }
}
