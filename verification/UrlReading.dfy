/** Exactly which templates the router can read back from the URLs it builds. `url_path_for` finds
    placeholders anywhere in a template, while the trie looks at whole segments only, so for some templates
    the route does not match its own URL, or matches it with other parameters. */
module UrlReading {
  import opened Options
  import opened Paths
  import opened Routes
  import opened Templates
  import opened Placeholders
  import opened UrlPaths

  // ---- Texts ----------------------------------------------------------------------------------------

  /** A text for a placeholder of the segment: not empty, without an opening brace, and one segment; in a
      wildcard segment any path without empty segments. */
  predicate Suits(seg: string, text: string) {
    && text != "" && '{' !in text
    && (if StepOf(seg).Rest? then Join(Segments(text)) == text else SlashFree(text))
  }

  predicate SegmentSuits(seg: string, texts: map<string, string>) {
    forall n :: n in NamesIn(seg) ==> n in texts && Suits(seg, texts[n])
  }

  predicate TextsSuit(segs: seq<string>, texts: map<string, string>) { forall s :: s in segs ==> SegmentSuits(s, texts) }

  // ---- Counting braces: what substitution changes ---------------------------------------------------

  function Braces(s: string): (n: nat) {
    if s == "" then 0 else (if s[0] == '{' then 1 else 0) + Braces(s[1..])
  }

  lemma {:induction false} BracesAppend(a: string, b: string)
    ensures Braces(a + b) == Braces(a) + Braces(b)
  {
    if a == "" {
      assert a + b == b;
    } else {
      assert (a + b)[1..] == a[1..] + b;
      BracesAppend(a[1..], b);
    }
  }

  lemma {:induction false} NoBraces(s: string)
    ensures Braces(s) == 0 <==> '{' !in s
  {
    if s != "" {
      NoBraces(s[1..]);
      assert s == [s[0]] + s[1..];
    }
  }

  /** The names of what follows a step of substitution. */
  lemma NamesStep(s: string)
    requires s != ""
    ensures NamesIn(s) == (if MatchLen(s) > 0 then {NameIn(s)} else {}) + NamesIn(s[Skip(s)..])
  {
  }

  lemma HeadBraces(s: string, texts: map<string, string>)
    requires s != "" && (MatchLen(s) > 0 ==> NameIn(s) in texts && '{' !in texts[NameIn(s)])
    ensures Braces(Head(s, texts)) + (if MatchLen(s) > 0 then 1 else 0) <= Braces(s[..Skip(s)])
  {
    if MatchLen(s) > 0 {
      NoBraces(texts[NameIn(s)]);
      assert s[..Skip(s)][0] == '{';
    } else {
      assert s[..1] == Head(s, texts);
    }
  }

  lemma BracesStep(s: string, texts: map<string, string>)
    requires s != ""
    ensures var k := Skip(s);
            && Braces(s) == Braces(s[..k]) + Braces(s[k..])
            && Braces(Substitute(s, texts)) == Braces(Head(s, texts)) + Braces(Substitute(s[k..], texts))
  {
    var k := Skip(s);
    BracesAppend(s[..k], s[k..]);
    assert s == s[..k] + s[k..];
    BracesAppend(Head(s, texts), Substitute(s[k..], texts));
  }

  /** Substituting texts without opening braces takes one away for each placeholder. */
  lemma {:induction false} SubstituteLosesBraces(s: string, texts: map<string, string>)
    requires forall n :: n in NamesIn(s) ==> n in texts && '{' !in texts[n]
    ensures Braces(Substitute(s, texts)) <= Braces(s)
    ensures NamesIn(s) != {} ==> Braces(Substitute(s, texts)) < Braces(s)
    decreases |s|
  {
    if s != "" {
      NamesStep(s);
      SubstituteLosesBraces(s[Skip(s)..], texts);
      BracesStep(s, texts);
      HeadBraces(s, texts);
    }
  }

  /** So it leaves a segment alone exactly when there is no placeholder in it. */
  lemma UnchangedIff(seg: string, texts: map<string, string>)
    requires forall n :: n in NamesIn(seg) ==> n in texts && '{' !in texts[n]
    ensures Substitute(seg, texts) == seg <==> NamesIn(seg) == {}
  {
    if NamesIn(seg) == {} {
      NoNamesNoChange(seg, texts);
    } else {
      SubstituteLosesBraces(seg, texts);
    }
  }

  /** A segment that has placeholders but is no parameter to the trie: the route matches its own URL exactly
      when there is none. */
  lemma EmbeddedPlaceholder(seg: string, texts: map<string, string>)
    requires !Braced(seg) && forall n :: n in NamesIn(seg) ==> n in texts && '{' !in texts[n]
    ensures Match(ShapeOf([seg]), [Substitute(seg, texts)]).Some? <==> NamesIn(seg) == {}
  {
    UnchangedIff(seg, texts);
    LitMatches(seg, Substitute(seg, texts), [], []);
    assert ShapeOf([seg]) == [Lit(seg)] + [] && [Substitute(seg, texts)] + [] == [Substitute(seg, texts)];
  }

  // ---- The segments of the URL ----------------------------------------------------------------------

  predicate HasInk(s: string) { exists i :: 0 <= i < |s| && s[i] != '/' }

  lemma {:induction false} InkSegments(s: string)
    ensures HasInk(s) <==> Segments(s) != []
  {
    if s != "" {
      var tail := s[1..];
      InkSegments(tail);
      assert forall i :: 0 <= i < |tail| ==> tail[i] == s[i + 1];
      if s[0] == '/' {
        assert Split(s)[1..] == Split(tail);
        assert HasInk(s) <==> HasInk(tail) by {
          if i :| 0 <= i < |s| && s[i] != '/' {
            assert tail[i - 1] != '/';
          }
        }
      } else {
        assert s[0] != '/';
      }
    }
  }

  lemma InkAppend(a: string, b: string)
    requires HasInk(a)
    ensures HasInk(a + b)
  {
    var i :| 0 <= i < |a| && a[i] != '/';
    assert (a + b)[i] != '/';
  }

  lemma {:induction false} SlashFreeSubstitute(s: string, texts: map<string, string>)
    requires SlashFree(s) && forall n :: n in NamesIn(s) ==> n in texts && SlashFree(texts[n])
    ensures SlashFree(Substitute(s, texts))
    decreases |s|
  {
    if s != "" {
      NamesStep(s);
      SlashFreeSubstitute(s[Skip(s)..], texts);
      assert s[0] in s;
    }
  }

  /** What a segment becomes is not empty, and not only slashes. */
  lemma SubstituteHasInk(seg: string, texts: map<string, string>)
    requires seg != "" && SlashFree(seg) && SegmentSuits(seg, texts)
    ensures HasInk(Substitute(seg, texts))
  {
    NamesStep(seg);
    var head := Head(seg, texts);
    if MatchLen(seg) > 0 {
      var text := texts[NameIn(seg)];
      if StepOf(seg).Rest? {
        InkSegments(text);
      } else {
        assert text[0] in text;
      }
    } else {
      assert seg[0] in seg && head[0] != '/';
    }
    InkAppend(head, Substitute(seg[Skip(seg)..], texts));
  }

  lemma OneSegment(seg: string, texts: map<string, string>)
    requires seg != "" && SlashFree(seg) && SegmentSuits(seg, texts) && !StepOf(seg).Rest?
    ensures Contribution(seg, texts) == [Substitute(seg, texts)]
  {
    SubstituteHasInk(seg, texts);
    SlashFreeSubstitute(seg, texts);
    SegmentsWhole(Substitute(seg, texts));
  }

  // ---- Matching the template's own URL --------------------------------------------------------------

  /** What the trie captures for a segment of its own URL. */
  function CaptureOf(seg: string, texts: map<string, string>): (cap: string) {
    if StepOf(seg).Rest? then Join(Contribution(seg, texts)) else Substitute(seg, texts)
  }

  function CapturesFrom(segs: seq<string>, texts: map<string, string>): (caps: seq<string>) {
    if segs == [] then []
    else CapturesOf(segs[0], texts) + CapturesFrom(segs[1..], texts)
  }

  /** No segment has a placeholder without being a parameter. */
  predicate NoneEmbedded(segs: seq<string>) { forall s :: s in segs && !Braced(s) ==> NamesIn(s) == {} }

  lemma LitMatches(text: string, head: string, shape: Shape, segs: seq<string>)
    ensures Match([Lit(text)] + shape, [head] + segs) == if text == head then Match(shape, segs) else None
  {
    assert ([Lit(text)] + shape)[1..] == shape && ([head] + segs)[1..] == segs;
  }

  /** Exactly the templates without embedded placeholders match their own URLs. */
  lemma {:induction false} MatchesItself(segs: seq<string>, texts: map<string, string>)
    requires Clean(segs) && WildcardLast(segs) && TextsSuit(segs, texts)
    ensures Match(ShapeOf(segs), Contributions(segs, texts)) == SelfMatch(segs, texts)
  {
    if segs != [] {
      var seg, rest := segs[0], segs[1..];
      assert segs == [seg] + rest && seg in segs;
      assert forall s :: s in rest ==> s in segs;
      assert forall i :: 0 <= i < |rest| ==> rest[i] == segs[i + 1];
      MatchesItself(rest, texts);
      ShapeCons(seg, rest);
      MatchesHead(seg, rest, texts);
    }
  }

  /** What matching the rest of the template gives. */
  function SelfMatch(segs: seq<string>, texts: map<string, string>): (caps: Option<seq<string>>) {
    if NoneEmbedded(segs) then Some(CapturesFrom(segs, texts)) else None
  }

  lemma SelfMatchCons(seg: string, rest: seq<string>, texts: map<string, string>)
    ensures SelfMatch([seg] + rest, texts) ==
            if SelfMatch(rest, texts).None? || (!Braced(seg) && NamesIn(seg) != {}) then None
            else Some(CapturesOf(seg, texts) + SelfMatch(rest, texts).value)
  {
    var all := [seg] + rest;
    assert all[0] == seg && all[1..] == rest;
    assert forall s :: s in all <==> s == seg || s in rest;
    if !NoneEmbedded(rest) {
      var s :| s in rest && !Braced(s) && NamesIn(s) != {};
      assert s in all;
    }
  }

  lemma MatchesHead(seg: string, rest: seq<string>, texts: map<string, string>)
    requires seg != "" && SlashFree(seg) && SegmentSuits(seg, texts) && (StepOf(seg).Rest? ==> rest == [])
    requires Match(ShapeOf(rest), Contributions(rest, texts)) == SelfMatch(rest, texts)
    ensures Match([StepOf(seg)] + ShapeOf(rest), Contribution(seg, texts) + Contributions(rest, texts)) ==
            SelfMatch([seg] + rest, texts)
  {
    SelfMatchCons(seg, rest, texts);
    if StepOf(seg).Rest? {
      WildcardHead(seg, texts);
    } else if Braced(seg) {
      OneSegment(seg, texts);
      StepMatches(One, Substitute(seg, texts), ShapeOf(rest), Contributions(rest, texts));
    } else {
      OneSegment(seg, texts);
      LiteralHead(seg, texts, ShapeOf(rest), Contributions(rest, texts));
    }
  }

  lemma LiteralHead(seg: string, texts: map<string, string>, shape: Shape, more: seq<string>)
    requires !Braced(seg) && SegmentSuits(seg, texts)
    ensures var tail := Match(shape, more);
            Match([Lit(seg)] + shape, [Substitute(seg, texts)] + more) ==
            if tail.None? || NamesIn(seg) != {} then None else Some([] + tail.value)
  {
    UnchangedIff(seg, texts);
    LitMatches(seg, Substitute(seg, texts), shape, more);
    if Match(shape, more).Some? {
      assert [] + Match(shape, more).value == Match(shape, more).value;
    }
  }

  lemma WildcardHead(seg: string, texts: map<string, string>)
    requires seg != "" && SlashFree(seg) && SegmentSuits(seg, texts) && StepOf(seg).Rest?
    ensures Match([Rest] + ShapeOf([]), Contribution(seg, texts) + Contributions([], texts)) ==
            Some(CapturesOf(seg, texts) + CapturesFrom([], texts))
  {
    SubstituteHasInk(seg, texts);
    InkSegments(Substitute(seg, texts));
    assert [Rest] + ShapeOf([]) == [Rest] && Contribution(seg, texts) + [] == Contribution(seg, texts);
    assert CapturesOf(seg, texts) + [] == [CaptureOf(seg, texts)];
  }

  // ---- The parameters that come back ----------------------------------------------------------------

  /** Converters that keep the text. */
  function AsText(c: Converter, text: string): (v: Option<Value>) { Some(Text(text)) }

  /** The last parameter segment of a name; its value wins. */
  function LastNamed(segs: seq<string>, name: string): (seg: Option<string>)
    ensures seg.Some? ==> seg.value in segs && Braced(seg.value) && ParamName(seg.value) == name
  {
    if segs == [] then None
    else
      var n := |segs| - 1;
      if Braced(segs[n]) && ParamName(segs[n]) == name then Some(segs[n]) else LastNamed(segs[..n], name)
  }

  function CapturesOf(seg: string, texts: map<string, string>): (caps: seq<string>) {
    if Braced(seg) then [CaptureOf(seg, texts)] else []
  }

  lemma {:induction false} CapturesSnocFrom(segs: seq<string>, seg: string, texts: map<string, string>)
    ensures CapturesFrom(segs + [seg], texts) == CapturesFrom(segs, texts) + CapturesOf(seg, texts)
  {
    if segs == [] {
      assert [] + [seg] == [seg] && [seg][1..] == [];
    } else {
      var a, b, c := CapturesOf(segs[0], texts), CapturesFrom(segs[1..], texts), CapturesOf(seg, texts);
      CapturesSnocFrom(segs[1..], seg, texts);
      assert (segs + [seg])[1..] == segs[1..] + [seg] && (segs + [seg])[0] == segs[0];
      assert a + (b + c) == a + b + c;
    }
  }

  /** Each name bound to the capture of its last segment. */
  ghost predicate BoundLast(segs: seq<string>, texts: map<string, string>, got: Params) {
    && (forall n :: n in got <==> LastNamed(segs, n).Some?)
    && (forall n :: n in got ==> got[n] == Text(CaptureOf(LastNamed(segs, n).value, texts)))
  }

  lemma BoundLastSnoc(front: seq<string>, seg: string, texts: map<string, string>, got: Params)
    requires BoundLast(front, texts, got)
    ensures BoundLast(front + [seg], texts, if Braced(seg) then got[ParamName(seg) := Text(CaptureOf(seg, texts))] else got)
  {
    forall n ensures LastNamed(front + [seg], n) == LastWith(front, seg, n) {
      LastNamedSnoc(front, seg, n);
    }
  }

  function LastWith(front: seq<string>, seg: string, n: string): (last: Option<string>) {
    if Braced(seg) && ParamName(seg) == n then Some(seg) else LastNamed(front, n)
  }

  lemma LastNamedSnoc(front: seq<string>, seg: string, n: string)
    ensures LastNamed(front + [seg], n) == LastWith(front, seg, n)
  {
    assert (front + [seg])[..|front|] == front;
  }

  lemma BindsOneMore(front: seq<string>, seg: string, texts: map<string, string>)
    requires |SpecsOf(front)| == |CapturesFrom(front, texts)| && Bind(SpecsOf(front), CapturesFrom(front, texts), AsText).Some?
    ensures var got := Bind(SpecsOf(front), CapturesFrom(front, texts), AsText).value;
            && |SpecsOf(front + [seg])| == |CapturesFrom(front + [seg], texts)|
            && Bind(SpecsOf(front + [seg]), CapturesFrom(front + [seg], texts), AsText) ==
               Some(if Braced(seg) then got[ParamName(seg) := Text(CaptureOf(seg, texts))] else got)
  {
    CapturesSnocFrom(front, seg, texts);
    assert (front + [seg])[..|front|] == front;
    if Braced(seg) {
      BindSnoc(SpecsOf(front), SpecOf(seg), CapturesFrom(front, texts), CaptureOf(seg, texts), AsText);
    } else {
      assert SpecsOf(front + [seg]) == SpecsOf(front) && CapturesFrom(front + [seg], texts) == CapturesFrom(front, texts);
    }
  }

  /** Binding the captures does that. */
  ghost predicate Binds(segs: seq<string>, texts: map<string, string>) {
    var got := Bind(SpecsOf(segs), CapturesFrom(segs, texts), AsText);
    |SpecsOf(segs)| == |CapturesFrom(segs, texts)| && got.Some? && BoundLast(segs, texts, got.value)
  }

  lemma BindsStep(front: seq<string>, seg: string, texts: map<string, string>)
    requires Binds(front, texts)
    ensures Binds(front + [seg], texts)
  {
    BoundLastSnoc(front, seg, texts, Bind(SpecsOf(front), CapturesFrom(front, texts), AsText).value);
    BindsOneMore(front, seg, texts);
  }

  lemma {:induction false} BindsLast(segs: seq<string>, texts: map<string, string>)
    ensures Binds(segs, texts)
  {
    if segs != [] {
      var n := |segs| - 1;
      BindsLast(segs[..n], texts);
      BindsStep(segs[..n], segs[n], texts);
      assert segs == segs[..n] + [segs[n]];
    }
  }

  // ---- The names of a template ----------------------------------------------------------------------

  function AllNames(segs: seq<string>): (names: set<string>) {
    if segs == [] then {} else NamesIn(segs[0]) + AllNames(segs[1..])
  }

  lemma {:induction false} AllNamesHas(segs: seq<string>, n: string)
    ensures n in AllNames(segs) <==> exists s :: s in segs && n in NamesIn(s)
  {
    if segs != [] {
      AllNamesHas(segs[1..], n);
      assert segs == [segs[0]] + segs[1..];
      if s :| s in segs && n in NamesIn(s) {
        assert s == segs[0] || s in segs[1..];
      }
    }
  }

  lemma {:induction false} NamesAtSlash(a: string, b: string)
    ensures NamesIn(a + "/" + b) == NamesIn(a) + NamesIn(b)
    decreases |a|
  {
    var s := a + "/" + b;
    if a == "" {
      assert s[0] == '/' && s[1..] == b;
    } else {
      MatchAtSlash(a, b);
      var k := Skip(a);
      assert s[0] == a[0] && s[k..] == a[k..] + "/" + b;
      NamesStep(s);
      NamesStep(a);
      NamesAtSlash(a[k..], b);
    }
  }

  lemma {:induction false} NamesOfJoin(pieces: seq<string>)
    ensures NamesIn(Join(pieces)) == AllNames(pieces)
  {
    if |pieces| == 1 {
      assert AllNames(pieces[1..]) == {};
    } else if |pieces| > 1 {
      NamesAtSlash(pieces[0], Join(pieces[1..]));
      NamesOfJoin(pieces[1..]);
    }
  }

  lemma {:induction false} NamesOfKept(pieces: seq<string>)
    ensures AllNames(DropEmpty(pieces)) == AllNames(pieces)
  {
    if pieces != [] {
      NamesOfKept(pieces[1..]);
      if pieces[0] == "" {
        assert DropEmpty(pieces) == DropEmpty(pieces[1..]);
      } else {
        assert DropEmpty(pieces)[1..] == DropEmpty(pieces[1..]);
      }
    }
  }

  /** The placeholders of a template are those of its segments. */
  lemma NamesOfTemplate(template: string)
    ensures NamesIn(template) == AllNames(Segments(template))
  {
    JoinSplit(template);
    NamesOfJoin(Split(template));
    NamesOfKept(Split(template));
  }

  // ---- When a capture is the text that went in ------------------------------------------------------

  predicate Ident(n: string) { n != "" && IdentLen(n) == |n| }

  lemma {:induction false} WordRunTake(s: string, k: nat)
    requires k <= WordRun(s)
    ensures WordRun(s[..k]) == k
    ensures forall i :: 0 <= i < k ==> WordChar(s[i])
  {
    if k > 0 {
      WordRunTake(s[1..], k - 1);
      assert s[..k][1..] == s[1..][..k - 1];
      assert forall i :: 0 < i < k ==> s[i] == s[1..][i - 1];
    }
  }

  lemma NameIsIdent(s: string)
    requires MatchLen(s) > 0
    ensures Ident(NameIn(s)) && NameIn(s) == s[1..1 + IdentLen(s[1..])]
  {
    var k := IdentLen(s[1..]);
    WordRunTake(s[1..], k);
    assert s[1..][..k] == NameIn(s);
  }

  lemma {:induction false} NamesAreIdents(s: string, n: string)
    requires n in NamesIn(s)
    ensures Ident(n)
    decreases |s|
  {
    NamesStep(s);
    if MatchLen(s) > 0 && n == NameIn(s) {
      NameIsIdent(s);
    } else {
      NamesAreIdents(s[Skip(s)..], n);
    }
  }

  lemma {:induction false} IdentHasNoBrace(n: string)
    requires WordRun(n) == |n|
    ensures '}' !in n && ':' !in n
  {
    if n != "" {
      IdentHasNoBrace(n[1..]);
      assert n == [n[0]] + n[1..];
    }
  }

  lemma {:induction false} ColonSplits(s: string)
    ensures s == BeforeColon(s) || s == BeforeColon(s) + ":" + AfterColon(s)
    ensures ':' !in BeforeColon(s)
  {
    if s != "" && s[0] != ':' {
      ColonSplits(s[1..]);
      assert s == [s[0]] + s[1..];
    }
  }

  lemma {:induction false} WordRunAll(n: string, more: string)
    requires WordRun(n) == |n| && (more == "" || !WordChar(more[0]))
    ensures WordRun(n + more) == |n|
  {
    if n == "" {
      assert n + more == more;
    } else {
      assert (n + more)[1..] == n[1..] + more;
      WordRunAll(n[1..], more);
    }
  }

  /** A wildcard segment whose name is an identifier is one placeholder. */
  lemma WildcardIsWhole(seg: string)
    requires Braced(seg) && ParamSpec(seg) == "path" && Ident(ParamName(seg))
    ensures MatchLen(seg) == |seg|
  {
    var inner, n := seg[1..|seg| - 1], ParamName(seg);
    ColonSplits(inner);
    assert inner == n + ":" + "path" by {
      if inner == n {
        NoColonAll(inner);
      }
    }
    assert seg == "{" + n + ":path}" by {
      assert seg == [seg[0]] + inner + [seg[|seg| - 1]];
    }
    WildcardMatch(n);
  }

  lemma WildcardMatch(n: string)
    requires Ident(n)
    ensures MatchLen("{" + n + ":path}") == |n| + 7
  {
    var more := ":path}";
    var seg := "{" + n + more;
    assert seg[1..] == n + more && seg[1 + |n|..] == more;
    WordRunAll(n, more);
    assert seg[1..][0] == n[0];
    PathIdent();
    assert more[1..] == "path}";
  }

  lemma PathIdent()
    ensures IdentLen("path}") == 4
  {
    assert "path}"[1..] == "ath}" && "ath}"[1..] == "th}" && "th}"[1..] == "h}" && "h}"[1..] == "}";
    assert WordRun("}") == 0 && WordRun("h}") == 1 && WordRun("th}") == 2 && WordRun("ath}") == 3;
  }

  /** The first placeholder of a longer parameter segment: closed before the end, so the trie's name runs
      over its brace, or followed by a converter, so the trie has its name. */
  lemma FirstOfMany(seg: string)
    requires Braced(seg) && 0 < MatchLen(seg) < |seg|
    ensures '}' in ParamName(seg) || ParamName(seg) == NameIn(seg)
  {
    var k := IdentLen(seg[1..]);
    var inner := seg[1..|seg| - 1];
    NameIsIdent(seg);
    IdentHasNoBrace(NameIn(seg));
    assert forall i :: 0 <= i < |inner| ==> inner[i] == seg[i + 1];
    assert forall i :: 0 <= i < k ==> inner[i] == NameIn(seg)[i];
    if seg[1 + k] == '}' {
      assert inner[k] == '}';
      ReachesBrace(inner, k);
    } else {
      assert inner[k] == ':';
      assert k <= WordRun(inner) by {
        WordRunPrefix(seg[1..], inner, k);
      }
      IdentBeforeColon(inner, k);
      assert inner[..k] == NameIn(seg);
    }
  }

  lemma {:induction false} ReachesBrace(s: string, k: nat)
    requires k < |s| && s[k] == '}' && forall i :: 0 <= i < k ==> s[i] != ':'
    ensures '}' in BeforeColon(s)
  {
    if k > 0 {
      ReachesBrace(s[1..], k - 1);
    }
  }

  lemma NonEmptySubstitute(s: string, texts: map<string, string>)
    requires s != "" && forall n :: n in NamesIn(s) ==> n in texts && texts[n] != ""
    ensures Substitute(s, texts) != ""
  {
    NamesStep(s);
    assert Substitute(s, texts)[0] == Head(s, texts)[0];
  }

  lemma StartsWithBrace(seg: string, texts: map<string, string>)
    requires Braced(seg) && MatchLen(seg) == 0
    ensures '{' in Substitute(seg, texts)
  {
    assert Substitute(seg, texts)[0] == '{';
  }

  lemma LongerThanFirst(seg: string, texts: map<string, string>)
    requires 0 < MatchLen(seg) < |seg| && SegmentSuits(seg, texts)
    ensures NameIn(seg) in texts && |Substitute(seg, texts)| > |texts[NameIn(seg)]|
  {
    NamesStep(seg);
    NonEmptySubstitute(seg[MatchLen(seg)..], texts);
  }

  /** If a parameter segment gives back the text of its own name, it is one placeholder. */
  lemma WholeIfReturned(seg: string, texts: map<string, string>)
    requires Braced(seg) && SegmentSuits(seg, texts) && Ident(ParamName(seg))
    requires ParamName(seg) in texts && '{' !in texts[ParamName(seg)] && CaptureOf(seg, texts) == texts[ParamName(seg)]
    ensures MatchLen(seg) == |seg|
  {
    if StepOf(seg).Rest? {
      WildcardIsWhole(seg);
    } else if MatchLen(seg) == 0 {
      StartsWithBrace(seg, texts);
    } else if MatchLen(seg) < |seg| {
      FirstOfMany(seg);
      IdentHasNoBrace(ParamName(seg));
      LongerThanFirst(seg, texts);
    }
  }

  /** One placeholder and nothing else. */
  lemma WholeReads(seg: string, texts: map<string, string>)
    requires MatchLen(seg) == |seg| > 0
    ensures NamesIn(seg) == {NameIn(seg)}
    ensures NameIn(seg) in texts ==> Substitute(seg, texts) == texts[NameIn(seg)]
  {
    NamesStep(seg);
    assert seg[|seg|..] == "" && Substitute("", texts) == "" && NamesIn("") == {};
    assert Substitute(seg, texts) == Head(seg, texts) + "";
  }

  /** And one placeholder gives back its text. */
  lemma ReturnedIfWhole(seg: string, texts: map<string, string>)
    requires MatchLen(seg) == |seg| > 0 && SegmentSuits(seg, texts)
    ensures Braced(seg) && NamesIn(seg) == {ParamName(seg)}
    ensures ParamName(seg) in texts && CaptureOf(seg, texts) == texts[ParamName(seg)]
  {
    PlaceholderReadAlike(seg);
    WholeReads(seg, texts);
    assert Suits(seg, texts[NameIn(seg)]);
  }

  // ---- The theorem ----------------------------------------------------------------------------------

  /** What matching a template's URL against its own shape binds, texts kept as they are. */
  function ReadBack(template: string, texts: map<string, string>): (params: Option<Params>) {
    var segs := Segments(template);
    var caps := Match(ShapeOf(segs), Segments(Substitute(template, texts)));
    if caps.None? then None else Bind(SpecsOf(segs), caps.value, AsText)
  }

  /** No segment has a placeholder without being a parameter; the last parameter segment of each name is one
      placeholder; and the name of every placeholder is a parameter. */
  ghost predicate Readable(segs: seq<string>) {
    && NoneEmbedded(segs)
    && (forall n :: LastNamed(segs, n).Some? ==> MatchLen(LastNamed(segs, n).value) == |LastNamed(segs, n).value|)
    && (forall s, n :: s in segs && n in NamesIn(s) ==> LastNamed(segs, n).Some?)
  }

  /** For all suitable texts, routing the URL of a template by the template's own route gives exactly the
      parameters back if and only if the template is readable. */
  lemma UrlComesBack(template: string, texts: map<string, string>)
    requires WildcardLast(Segments(template)) && TextsSuit(Segments(template), texts)
    ensures NamesIn(template) <= texts.Keys
    ensures ReadBack(template, texts) == Some(map n | n in NamesIn(template) :: Text(texts[n])) <==>
            Readable(Segments(template))
  {
    var segs := Segments(template);
    SegmentsClean(template);
    NamesOfTemplate(template);
    forall n ensures n in NamesIn(template) <==> exists s :: s in segs && n in NamesIn(s) {
      AllNamesHas(segs, n);
    }
    UrlSegments(template, texts);
    MatchesItself(segs, texts);
    BindsLast(segs, texts);
    var wanted := map n | n in NamesIn(template) :: Text(texts[n]);
    if Readable(segs) {
      ReadableReturns(segs, texts, wanted);
    } else if ReadBack(template, texts) == Some(wanted) {
      ReturnsReadable(segs, texts, wanted);
    }
  }

  /** The wanted parameters: each placeholder's text under its name. */
  ghost predicate Wants(segs: seq<string>, texts: map<string, string>, wanted: Params) {
    && (forall n :: n in wanted <==> exists s :: s in segs && n in NamesIn(s))
    && (forall n :: n in wanted ==> n in texts && wanted[n] == Text(texts[n]))
  }

  lemma ReadableReturns(segs: seq<string>, texts: map<string, string>, wanted: Params)
    requires Clean(segs) && TextsSuit(segs, texts) && Wants(segs, texts, wanted) && Readable(segs)
    ensures Bind(SpecsOf(segs), CapturesFrom(segs, texts), AsText) == Some(wanted)
  {
    BindsLast(segs, texts);
    var got := Bind(SpecsOf(segs), CapturesFrom(segs, texts), AsText).value;
    forall n ensures (n in got <==> n in wanted) && (n in wanted ==> got[n] == wanted[n]) {
      LastReturns(segs, texts, wanted, n);
    }
    SameParams(got, wanted);
  }

  lemma SameParams(a: Params, b: Params)
    requires forall n :: (n in a <==> n in b) && (n in b ==> a[n] == b[n])
    ensures a == b
  {
  }

  lemma LastReturns(segs: seq<string>, texts: map<string, string>, wanted: Params, n: string)
    requires Clean(segs) && TextsSuit(segs, texts) && Wants(segs, texts, wanted) && Readable(segs)
    ensures LastNamed(segs, n).Some? <==> n in wanted
    ensures n in wanted ==> wanted[n] == Text(CaptureOf(LastNamed(segs, n).value, texts))
  {
    if LastNamed(segs, n).Some? {
      var seg := LastNamed(segs, n).value;
      ReturnedIfWhole(seg, texts);
    }
  }

  lemma ReturnsReadable(segs: seq<string>, texts: map<string, string>, wanted: Params)
    requires TextsSuit(segs, texts) && Wants(segs, texts, wanted) && NoneEmbedded(segs)
    requires Bind(SpecsOf(segs), CapturesFrom(segs, texts), AsText) == Some(wanted)
    ensures Readable(segs)
  {
    BindsLast(segs, texts);
    forall n | LastNamed(segs, n).Some?
      ensures MatchLen(LastNamed(segs, n).value) == |LastNamed(segs, n).value|
    {
      var seg := LastNamed(segs, n).value;
      assert n in wanted;
      var s :| s in segs && n in NamesIn(s);
      NamesAreIdents(s, n);
      assert Suits(s, texts[n]);
      WholeIfReturned(seg, texts);
    }
  }

  ghost predicate DistinctParams(segs: seq<string>) {
    forall i, j :: 0 <= i < j < |segs| && Braced(segs[i]) && Braced(segs[j]) ==> ParamName(segs[i]) != ParamName(segs[j])
  }

  /** With each parameter name used once, the readable templates are those whose segments are each one
      placeholder or plain text. */
  lemma ReadableIsWhole(segs: seq<string>)
    requires DistinctParams(segs)
    ensures Readable(segs) <==> WholeSegments(segs)
  {
    forall i | 0 <= i < |segs| && Braced(segs[i]) ensures LastNamed(segs, ParamName(segs[i])) == Some(segs[i]) {
      OnlyNamed(segs, i);
    }
    if Readable(segs) {
      forall s | s in segs ensures WholeSegment(s) {
        var i :| 0 <= i < |segs| && segs[i] == s;
        if !Braced(s) && s != "" {
          NamesStep(s);
        }
      }
    }
    if WholeSegments(segs) {
      forall s | s in segs && Braced(s) ensures NamesIn(s) == {ParamName(s)} {
        WholeNames(s);
      }
      forall s, n | s in segs && n in NamesIn(s) ensures LastNamed(segs, n).Some? {
        var i :| 0 <= i < |segs| && segs[i] == s;
        WholeNames(s);
      }
      forall s | s in segs && !Braced(s) ensures NamesIn(s) == {} {
        WholeNames(s);
      }
    }
  }

  lemma WholeNames(s: string)
    requires WholeSegment(s)
    ensures if Braced(s) then NamesIn(s) == {ParamName(s)} else NamesIn(s) == {}
  {
    if MatchLen(s) > 0 {
      PlaceholderReadAlike(s);
      WholeReads(s, map[]);
    }
  }

  lemma {:induction false} OnlyNamed(segs: seq<string>, i: nat)
    requires DistinctParams(segs) && i < |segs| && Braced(segs[i])
    ensures LastNamed(segs, ParamName(segs[i])) == Some(segs[i])
  {
    var n := |segs| - 1;
    if i < n {
      OnlyNamed(segs[..n], i);
    }
  }

  // ---- Two templates that fail ----------------------------------------------------------------------

  /** A placeholder of one letter, then anything. */
  lemma OneLetter(c: char, more: string, texts: map<string, string>)
    requires IdentStart(c) && [c] in texts
    ensures var s := ['{', c, '}'] + more;
            && Substitute(s, texts) == texts[[c]] + Substitute(more, texts)
            && NamesIn(s) == {[c]} + NamesIn(more)
  {
    var s := ['{', c, '}'] + more;
    var t := s[1..];
    assert t == [c, '}'] + more && t[1..] == ['}'] + more;
    assert WordRun(t[1..]) == 0 && WordRun(t) == 1;
    assert s[2..] == ['}'] + more && s[3..] == more;
    assert MatchLen(s) == 3 && NameIn(s) == [c];
  }

  lemma OneChar(c: char, more: string, texts: map<string, string>)
    requires c != '{'
    ensures Substitute([c] + more, texts) == [c] + Substitute(more, texts) && NamesIn([c] + more) == NamesIn(more)
  {
    assert ([c] + more)[1..] == more;
  }

  /** The URL of `a{x}` with the text `1` is `a1`, which its route does not match. */
  lemma EmbeddedPlaceholderLost(seg: string, url: string, texts: map<string, string>)
    requires seg == "a{x}" && url == "a1" && texts == map["x" := "1"]
    ensures !Braced(seg) && NamesIn(seg) == {"x"} && Substitute(seg, texts) == url && Match(ShapeOf([seg]), [url]).None?
  {
    SpelledOne(seg, url);
    OneLetter('x', [], texts);
    OneChar('a', ['{', 'x', '}'] + [], texts);
    EmbeddedPlaceholder(seg, texts);
  }

  lemma SpelledOne(seg: string, url: string)
    requires seg == "a{x}" && url == "a1"
    ensures seg == ['a'] + (['{', 'x', '}'] + []) && url == ['a'] + ("1" + [])
  {
  }

  lemma {:induction false} NoColonAll(s: string)
    requires ':' !in s
    ensures BeforeColon(s) == s && AfterColon(s) == ""
  {
    if s != "" {
      NoColonAll(s[1..]);
      assert s == [s[0]] + s[1..];
    }
  }

  /** `{a}-{b}` is one parameter to the trie: its URL `1-2` is matched, under a name that nobody gave. */
  lemma TwoPlaceholdersMisread(seg: string, url: string, texts: map<string, string>)
    requires seg == "{a}-{b}" && url == "1-2" && texts == map["a" := "1", "b" := "2"]
    ensures StepOf(seg) == One && ParamName(seg) == "a}-{b" && NamesIn(seg) == {"a", "b"}
    ensures Substitute(seg, texts) == url && Match(ShapeOf([seg]), [url]) == Some([url])
  {
    TwoPlaceholders(seg, url, texts);
    var inner := seg[1..|seg| - 1];
    assert inner == "a}-{b";
    NoColonAll(inner);
    StepMatches(One, url, [], []);
    assert ShapeOf([seg]) == [One] + [] && [url] + [] == [url];
  }

  lemma TwoPlaceholders(seg: string, url: string, texts: map<string, string>)
    requires seg == "{a}-{b}" && url == "1-2" && texts == map["a" := "1", "b" := "2"]
    ensures Substitute(seg, texts) == url && NamesIn(seg) == {"a", "b"}
  {
    Spelled(seg, url);
    PairOf('a', 'b', texts);
  }

  lemma Spelled(seg: string, url: string)
    requires seg == "{a}-{b}" && url == "1-2"
    ensures seg == ['{', 'a', '}'] + (['-'] + (['{', 'b', '}'] + [])) && url == "1" + (['-'] + ("2" + []))
  {
  }

  lemma PairOf(a: char, b: char, texts: map<string, string>)
    requires IdentStart(a) && IdentStart(b) && [a] in texts && [b] in texts
    ensures var s := ['{', a, '}'] + (['-'] + (['{', b, '}'] + []));
            Substitute(s, texts) == texts[[a]] + (['-'] + (texts[[b]] + [])) && NamesIn(s) == {[a], [b]}
  {
    OneLetter(b, [], texts);
    var second := ['{', b, '}'] + [];
    OneChar('-', second, texts);
    OneLetter(a, ['-'] + second, texts);
  }
}
