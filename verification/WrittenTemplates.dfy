/** Templates as a user writes them, piece by piece, and what the router makes of the text: which requests
    the route serves with which parameters, why it is refused, and the URL it gives. None of these
    meanings goes through the router's own reading of template texts. */
module WrittenTemplates {
  import opened Options
  import opened Paths
  import opened Routes
  import opened Templates
  import opened Placeholders
  import opened RouteTries
  import opened UrlPaths
  import opened UrlReading
  import Routers

  /** One segment: plain text, a parameter with one of the converters (`short` when `str` is left out), or
      a parameter with a converter name that does not exist. */
  datatype Piece =
    | Plain(text: string)
    | Param(name: string, conv: Converter, short: bool)
    | Unknown(name: string, spec: string)

  function SpecText(c: Converter): (spec: string) {
    match c case StrConv => "str" case IntConv => "int" case UuidConv => "uuid" case PathConv => "path"
  }

  /** The converter name of a parameter, `str` when it is left out. */
  function SpecWritten(p: Piece): (spec: string)
    requires !p.Plain?
  {
    if p.Param? then SpecText(p.conv) else p.spec
  }

  function Inner(p: Piece): (text: string)
    requires !p.Plain?
  {
    if p.Param? && p.short then p.name else p.name + (":" + SpecWritten(p))
  }

  function Spelling(p: Piece): (seg: string) { if p.Plain? then p.text else "{" + Inner(p) + "}" }

  predicate PieceOk(p: Piece) {
    match p
    case Plain(text) => text != "" && SlashFree(text) && '{' !in text
    case Param(name, conv, short) => Ident(name) && (short ==> conv.StrConv?)
    case Unknown(name, spec) => Ident(name) && Ident(spec) && spec != "str" && spec != "int" && spec != "uuid" && spec != "path"
  }

  predicate PiecesOk(ps: seq<Piece>) { forall i :: 0 <= i < |ps| ==> PieceOk(ps[i]) }

  predicate Wild(p: Piece) { p.Param? && p.conv.PathConv? }

  predicate WildLast(ps: seq<Piece>) { forall i :: 0 <= i < |ps| - 1 ==> !Wild(ps[i]) }

  function Texts(ps: seq<Piece>): (texts: seq<string>) {
    if ps == [] then [] else [Spelling(ps[0])] + Texts(ps[1..])
  }

  function TemplateOf(ps: seq<Piece>): (template: string) { "/" + Join(Texts(ps)) }

  // ---- What a request means to the pieces -----------------------------------------------------------

  /** The parameters with which the segments of a path read as the pieces, on top of those read before. */
  function Read(ps: seq<Piece>, segs: seq<string>, conv: Convert, got: Params): (params: Option<Params>)
    decreases |ps|, 1
  {
    if ps == [] then (if segs == [] then Some(got) else None)
    else if segs == [] then None
    else match ps[0]
      case Plain(text) => if text == segs[0] then Read(ps[1..], segs[1..], conv, got) else None
      case Unknown(name, _) => ReadOne(ps, segs, conv, got, name, StrConv)
      case Param(name, c, _) =>
        if !c.PathConv? then ReadOne(ps, segs, conv, got, name, c)
        else if |ps| > 1 then None
        else
          var v := conv(PathConv, Join(segs));
          if v.None? then None else Some(got[name := v.value])
  }

  function ReadOne(ps: seq<Piece>, segs: seq<string>, conv: Convert, got: Params, name: string, c: Converter)
    : (params: Option<Params>)
    requires ps != [] && segs != []
    decreases |ps|, 0
  {
    var v := conv(c, segs[0]);
    if v.None? then None else Read(ps[1..], segs[1..], conv, got[name := v.value])
  }

  // ---- Reading one spelling -------------------------------------------------------------------------

  lemma {:induction false} ColonCuts(n: string, spec: string)
    requires ':' !in n
    ensures BeforeColon(n + (":" + spec)) == n && AfterColon(n + (":" + spec)) == spec
  {
    var s := n + (":" + spec);
    if n == "" {
      assert s == ":" + spec && s[1..] == spec;
    } else {
      assert s[1..] == n[1..] + (":" + spec) && s[0] == n[0];
      ColonCuts(n[1..], spec);
      assert [n[0]] + n[1..] == n;
    }
  }

  /** How the trie reads a braced text. */
  lemma BracedReads(inner: string)
    ensures var seg := "{" + inner + "}";
            Braced(seg) && ParamName(seg) == BeforeColon(inner)
            && ParamSpec(seg) == if AfterColon(inner) == "" then "str" else AfterColon(inner)
  {
    var seg := "{" + inner + "}";
    assert seg[1..|seg| - 1] == inner;
  }

  lemma IdentColonFree(n: string)
    requires Ident(n)
    ensures ':' !in n && '/' !in n && '{' !in n
  {
    IdentHasNoBrace(n);
    WordRunTake(n, |n|);
  }

  lemma SpecTextReads(c: Converter)
    ensures SpecText(c) != "" && ConverterOf(SpecText(c)) == c && (SpecText(c) == "path" <==> c.PathConv?)
  {
    var s, i, u, p := "str", "int", "uuid", "path";
    assert s[0] != i[0] && |s| != |u| && |s| != |p| && |i| != |u| && |i| != |p| && u[0] != p[0];
  }

  lemma InnerReads(p: Piece)
    requires PieceOk(p) && !p.Plain?
    ensures BeforeColon(Inner(p)) == p.name
    ensures (if AfterColon(Inner(p)) == "" then "str" else AfterColon(Inner(p))) == SpecWritten(p)
  {
    IdentColonFree(p.name);
    if p.Param? && p.short {
      NoColonAll(p.name);
    } else {
      ColonCuts(p.name, SpecWritten(p));
      if p.Param? {
        SpecTextReads(p.conv);
      }
    }
  }

  /** The trie takes a parameter for what it is. */
  lemma ParamReads(p: Piece)
    requires PieceOk(p) && !p.Plain?
    ensures var seg := Spelling(p);
            && Braced(seg) && ParamName(seg) == p.name && ParamSpec(seg) == SpecWritten(p)
            && SpecOf(seg).name == p.name && SpecOf(seg).conv == (if p.Param? then p.conv else StrConv)
            && StepOf(seg) == if Wild(p) then Rest else One
  {
    BracedReads(Inner(p));
    InnerReads(p);
    if p.Param? {
      SpecTextReads(p.conv);
    }
  }

  lemma PlainReads(text: string)
    requires PieceOk(Plain(text))
    ensures !Braced(text) && StepOf(text) == Lit(text)
  {
    assert text[0] in text;
  }

  lemma InnerSlashFree(p: Piece)
    requires PieceOk(p) && !p.Plain?
    ensures SlashFree(Inner(p))
  {
    IdentColonFree(p.name);
    if p.Unknown? {
      IdentColonFree(p.spec);
    }
    assert SlashFree(SpecWritten(p));
  }

  lemma SpellingClean(p: Piece)
    requires PieceOk(p)
    ensures Spelling(p) != "" && SlashFree(Spelling(p))
  {
    if !p.Plain? {
      InnerSlashFree(p);
    }
  }

  lemma {:induction false} TextsAt(ps: seq<Piece>)
    ensures |Texts(ps)| == |ps| && forall i :: 0 <= i < |ps| ==> Texts(ps)[i] == Spelling(ps[i])
  {
    if ps != [] {
      TextsAt(ps[1..]);
      forall i | 0 < i < |ps| ensures Texts(ps)[i] == Spelling(ps[i]) {
        var n := i - 1;
        assert Texts(ps)[i] == Texts(ps[1..])[n] && ps[1..][n] == ps[i];
      }
    }
  }

  lemma TextsClean(ps: seq<Piece>)
    requires PiecesOk(ps)
    ensures Clean(Texts(ps))
  {
    TextsAt(ps);
    forall t | t in Texts(ps) ensures t != "" && SlashFree(t) {
      var i :| 0 <= i < |ps| && Texts(ps)[i] == t;
      SpellingClean(ps[i]);
    }
  }

  lemma SegmentsOfTemplate(ps: seq<Piece>)
    requires PiecesOk(ps)
    ensures Segments(TemplateOf(ps)) == Texts(ps)
  {
    TextsClean(ps);
    SegmentsOfNormalised(Texts(ps));
  }

  // ---- Which requests the route serves --------------------------------------------------------------

  /** Binding from the front. */
  function BindOnto(got: Params, specs: seq<Spec>, caps: seq<string>, conv: Convert): (params: Option<Params>)
    decreases |specs|
  {
    if |specs| != |caps| then None
    else if specs == [] then Some(got)
    else
      var v := conv(specs[0].conv, caps[0]);
      if v.None? then None else BindOnto(got[specs[0].name := v.value], specs[1..], caps[1..], conv)
  }

  lemma {:induction false} BindOntoSnoc(got: Params, specs: seq<Spec>, spec: Spec, caps: seq<string>, cap: string, conv: Convert)
    requires |specs| == |caps|
    decreases |specs|
    ensures var before, last := BindOnto(got, specs, caps, conv), conv(spec.conv, cap);
            BindOnto(got, specs + [spec], caps + [cap], conv) ==
            if before.None? || last.None? then None else Some(before.value[spec.name := last.value])
  {
    var all, texts := specs + [spec], caps + [cap];
    if specs == [] {
      assert all[1..] == [] && texts[1..] == [];
    } else {
      assert all[1..] == specs[1..] + [spec] && texts[1..] == caps[1..] + [cap];
      var v := conv(specs[0].conv, caps[0]);
      if v.Some? {
        BindOntoSnoc(got[specs[0].name := v.value], specs[1..], spec, caps[1..], cap, conv);
      }
    }
  }

  lemma {:induction false} BindIsOnto(specs: seq<Spec>, caps: seq<string>, conv: Convert)
    ensures Bind(specs, caps, conv) == BindOnto(map[], specs, caps, conv)
  {
    if |specs| == |caps| && specs != [] {
      var n := |specs| - 1;
      BindIsOnto(specs[..n], caps[..n], conv);
      BindOntoSnoc(map[], specs[..n], specs[n], caps[..n], caps[n], conv);
      assert specs[..n] + [specs[n]] == specs && caps[..n] + [caps[n]] == caps;
    }
  }

  lemma {:induction false} SpecsCons(seg: string, rest: seq<string>)
    ensures SpecsOf([seg] + rest) == (if Braced(seg) then [SpecOf(seg)] else []) + SpecsOf(rest)
  {
    var all := [seg] + rest;
    if rest == [] {
      assert all[..0] == [];
    } else {
      var n := |rest| - 1;
      assert all[..n + 1] == [seg] + rest[..n];
      SpecsCons(seg, rest[..n]);
    }
  }

  /** Matching a shape and binding what it captured, on top of what was bound before. */
  function Bound(texts: seq<string>, segs: seq<string>, conv: Convert, got: Params): (params: Option<Params>) {
    var caps := Match(ShapeOf(texts), segs);
    if caps.None? then None else BindOnto(got, SpecsOf(texts), caps.value, conv)
  }

  lemma BoundNil(segs: seq<string>, conv: Convert, got: Params)
    ensures Bound([], segs, conv, got) == if segs == [] then Some(got) else None
  {
  }

  lemma BoundPlain(text: string, rest: seq<string>, segs: seq<string>, conv: Convert, got: Params)
    requires !Braced(text) && segs != []
    ensures Bound([text] + rest, segs, conv, got) == if text == segs[0] then Bound(rest, segs[1..], conv, got) else None
  {
    ShapeCons(text, rest);
    SpecsCons(text, rest);
    LitMatches(text, segs[0], ShapeOf(rest), segs[1..]);
    assert [segs[0]] + segs[1..] == segs && [] + SpecsOf(rest) == SpecsOf(rest);
  }

  lemma BoundOne(seg: string, rest: seq<string>, segs: seq<string>, conv: Convert, got: Params)
    requires Braced(seg) && StepOf(seg) == One && segs != []
    ensures var v := conv(SpecOf(seg).conv, segs[0]);
            Bound([seg] + rest, segs, conv, got) ==
            if v.None? then None else Bound(rest, segs[1..], conv, got[SpecOf(seg).name := v.value])
  {
    ShapeCons(seg, rest);
    SpecsCons(seg, rest);
    StepMatches(One, segs[0], ShapeOf(rest), segs[1..]);
    assert [segs[0]] + segs[1..] == segs;
    var tail := Match(ShapeOf(rest), segs[1..]);
    if tail.Some? {
      var specs, caps := [SpecOf(seg)] + SpecsOf(rest), [segs[0]] + tail.value;
      assert specs[1..] == SpecsOf(rest) && caps[1..] == tail.value;
    }
  }

  lemma BoundRest(seg: string, rest: seq<string>, segs: seq<string>, conv: Convert, got: Params)
    requires Braced(seg) && StepOf(seg) == Rest && segs != []
    ensures var v := conv(SpecOf(seg).conv, Join(segs));
            Bound([seg] + rest, segs, conv, got) ==
            if rest != [] || v.None? then None else Some(got[SpecOf(seg).name := v.value])
  {
    ShapeCons(seg, rest);
    SpecsCons(seg, rest);
    var shape := [Rest] + ShapeOf(rest);
    assert ShapeOf([seg] + rest) == shape && |shape| == |rest| + 1;
    if rest == [] {
      var spec := SpecOf(seg);
      assert Match(shape, segs) == Some([Join(segs)]);
      assert SpecsOf([seg] + rest) == [spec] + [] == [spec];
      BindOntoOne(got, spec, Join(segs), conv);
    }
  }

  lemma BindOntoOne(got: Params, spec: Spec, cap: string, conv: Convert)
    ensures var v := conv(spec.conv, cap);
            BindOnto(got, [spec], [cap], conv) == if v.None? then None else Some(got[spec.name := v.value])
  {
    assert [spec][1..] == [] && [cap][1..] == [];
  }

  lemma {:induction false} ReadIsBound(ps: seq<Piece>, segs: seq<string>, conv: Convert, got: Params)
    requires PiecesOk(ps)
    ensures Read(ps, segs, conv, got) == Bound(Texts(ps), segs, conv, got)
    decreases |ps|, 1
  {
    if ps == [] {
      BoundNil(segs, conv, got);
    } else if segs != [] {
      var p, rest, seg := ps[0], ps[1..], Spelling(ps[0]);
      if p.Plain? {
        PlainReads(seg);
        ReadIsBound(rest, segs[1..], conv, got);
        BoundPlain(seg, Texts(rest), segs, conv, got);
      } else if Wild(p) {
        ParamReads(p);
        BoundRest(seg, Texts(rest), segs, conv, got);
      } else {
        ReadOneIsBound(ps, segs, conv, got);
      }
    }
  }

  lemma {:induction false} ReadOneIsBound(ps: seq<Piece>, segs: seq<string>, conv: Convert, got: Params)
    requires PiecesOk(ps) && ps != [] && segs != [] && !ps[0].Plain? && !Wild(ps[0])
    ensures Read(ps, segs, conv, got) == Bound(Texts(ps), segs, conv, got)
    decreases |ps|, 0
  {
    var p := ps[0];
    var c := if p.Param? then p.conv else StrConv;
    ParamReads(p);
    BoundOne(Spelling(p), Texts(ps[1..]), segs, conv, got);
    assert Read(ps, segs, conv, got) == ReadOne(ps, segs, conv, got, p.name, c);
    var v := conv(c, segs[0]);
    if v.Some? {
      ReadIsBound(ps[1..], segs[1..], conv, got[p.name := v.value]);
    }
  }

  /** The route of a written template serves exactly the requests whose method and scheme it lists and whose
      path reads as the pieces, with the converter of each piece; and with those parameters. */
  lemma RouteMeaning(ps: seq<Piece>, methods: seq<string>, scheme: SchemeKey, handler: nat, q: Query)
    requires PiecesOk(ps)
    ensures var r := RouteFor(TemplateOf(ps), methods, scheme, handler);
            var params := Read(ps, q.segs, q.conv, map[]);
            && (Offers(r, q) <==> (scheme.AnyScheme? || q.scheme in scheme.listed) && params.Some?)
            && (Serves(r, q) <==> Offers(r, q) && q.verb in methods)
            && (Offers(r, q) ==> HitFrom(r, q) == Hit(handler, params.value))
  {
    SegmentsOfTemplate(ps);
    ReadIsBound(ps, q.segs, q.conv, map[]);
    var caps := Match(ShapeOf(Texts(ps)), q.segs);
    if caps.Some? {
      BindIsOnto(SpecsOf(Texts(ps)), caps.value, q.conv);
    }
  }

  /** For example, `/{n:int}` serves exactly the paths of one segment that `int` accepts; likewise the other
      converters, and `path` takes the whole rest. */
  lemma OneParameter(name: string, c: Converter, short: bool, methods: seq<string>, handler: nat, q: Query)
    requires PieceOk(Param(name, c, short)) && q.verb in methods
    ensures var r := RouteFor("/" + Spelling(Param(name, c, short)), methods, AnyScheme, handler);
            var v := if q.segs == [] || (!c.PathConv? && |q.segs| > 1) then None else q.conv(c, Join(q.segs));
            && (Serves(r, q) <==> v.Some?)
            && (Serves(r, q) ==> HitFrom(r, q) == Hit(handler, map[name := v.value]))
  {
    var ps := [Param(name, c, short)];
    assert ps[1..] == [] && Texts(ps) == [Spelling(ps[0])];
    assert TemplateOf(ps) == "/" + Spelling(ps[0]);
    RouteMeaning(ps, methods, AnyScheme, handler, q);
    ReadsAlone(ps, q.segs, q.conv);
  }

  lemma ReadsAlone(ps: seq<Piece>, segs: seq<string>, conv: Convert)
    requires |ps| == 1 && ps[0].Param?
    ensures var v := if segs == [] || (!ps[0].conv.PathConv? && |segs| > 1) then None else conv(ps[0].conv, Join(segs));
            Read(ps, segs, conv, map[]) == if v.None? then None else Some(map[ps[0].name := v.value])
  {
    assert ps[1..] == [];
    var c, name := ps[0].conv, ps[0].name;
    if segs != [] {
      if |segs| == 1 {
        assert Join(segs) == segs[0] && segs[1..] == [];
      }
      var v := conv(c, if c.PathConv? then Join(segs) else segs[0]);
      if v.Some? {
        SingleParam(map[], name, v.value);
        var one: Params := map[name := v.value];
        if !c.PathConv? {
          assert Read([], segs[1..], conv, one) == if |segs| > 1 then None else Some(one);
          assert ReadOne(ps, segs, conv, map[], name, c) == Read(ps[1..], segs[1..], conv, one);
        }
      }
    }
  }

  lemma SingleParam(none: Params, name: string, v: Value)
    requires none == map[]
    ensures none[name := v] == map[name := v]
  {
  }

  // ---- What the placeholder pattern finds -----------------------------------------------------------

  /** An identifier in braces is one placeholder, and so are two with a colon between them. */
  lemma BracedIsOneMatch(n: string)
    requires Ident(n)
    ensures MatchLen("{" + n + "}") == |n| + 2
  {
    var seg := "{" + n + "}";
    assert seg[1..] == n + "}" && seg[1 + |n|..] == "}" && seg[1..][0] == n[0];
    WordRunAll(n, "}");
  }

  lemma ColonIsOneMatch(n: string, spec: string)
    requires Ident(n) && Ident(spec)
    ensures MatchLen("{" + (n + (":" + spec)) + "}") == |n| + |spec| + 3
  {
    var tail := spec + "}";
    var more := ":" + tail;
    var seg := "{" + (n + (":" + spec)) + "}";
    assert seg[1..] == n + more && seg[1 + |n|..] == more && seg[1..][0] == n[0];
    WordRunAll(n, more);
    assert more[1..] == tail && tail[0] == spec[0];
    WordRunAll(spec, "}");
  }

  lemma SpecTextIdent(c: Converter)
    ensures Ident(SpecText(c))
  {
    match c
    case StrConv => FourLetters('s', 't', 'r', 'r');
    case IntConv => FourLetters('i', 'n', 't', 't');
    case UuidConv => FourLetters('u', 'u', 'i', 'd');
    case PathConv => FourLetters('p', 'a', 't', 'h');
  }

  lemma FourLetters(a: char, b: char, c: char, d: char)
    requires IdentStart(a) && IdentStart(b) && IdentStart(c) && IdentStart(d)
    ensures Ident([a, b, c]) && Ident([a, b, c, d])
  {
    var three, four := [a, b, c], [a, b, c, d];
    assert four[1..] == [b, c, d] && [b, c, d][1..] == [c, d] && [c, d][1..] == [d] && [d][1..] == [];
    assert three[1..] == [b, c] && [b, c][1..] == [c] && [c][1..] == [];
    assert WordRun([d]) == 1 && WordRun([c, d]) == 2 && WordRun([b, c, d]) == 3;
    assert WordRun([c]) == 1 && WordRun([b, c]) == 2;
  }

  lemma ParamIsOneMatch(p: Piece)
    requires PieceOk(p) && !p.Plain?
    ensures MatchLen(Spelling(p)) == |Spelling(p)|
    ensures NameIn(Spelling(p)) == p.name && SpecIn(Spelling(p)) == SpecWritten(p)
  {
    if p.Param? && p.short {
      BracedIsOneMatch(p.name);
    } else {
      if p.Param? {
        SpecTextIdent(p.conv);
      }
      ColonIsOneMatch(p.name, SpecWritten(p));
    }
    ParamReads(p);
    PlaceholderReadAlike(Spelling(p));
  }

  /** What the pattern finds in a text: the specs, what is left, and the names. */
  ghost predicate Finds(s: string, specs: seq<string>, left: string, names: set<string>) {
    SpecsIn(s) == specs && Strip(s) == left && NamesIn(s) == names
  }

  lemma {:induction false} FindsNothing(s: string)
    requires '{' !in s
    ensures Finds(s, [], s, {})
  {
    if s != "" {
      FindsNothing(s[1..]);
      assert [s[0]] + s[1..] == s;
    }
  }

  lemma FindsInPiece(p: Piece)
    requires PieceOk(p)
    ensures if p.Plain? then Finds(Spelling(p), [], p.text, {})
            else Finds(Spelling(p), [SpecWritten(p)], "", {p.name})
  {
    if p.Plain? {
      FindsNothing(p.text);
    } else {
      ParamIsOneMatch(p);
      FindsWhole(Spelling(p));
    }
  }

  lemma FindsWhole(s: string)
    requires 0 < |s| == MatchLen(s)
    ensures Finds(s, [SpecIn(s)], "", {NameIn(s)})
  {
    assert s[|s|..] == "";
    assert SpecsIn("") == [] && Strip("") == "" && NamesIn("") == {};
  }

  lemma SpecAtSlash(a: string, b: string)
    requires MatchLen(a) > 0
    ensures MatchLen(a + "/" + b) == MatchLen(a) && SpecIn(a + "/" + b) == SpecIn(a)
  {
    MatchAtSlash(a, b);
    DropAtSlash(a, b, 1);
    IdentAtSlash(a[1..], b);
    var n := 1 + IdentLen(a[1..]);
    DropAtSlash(a, b, n);
    TailAtSlash(a[n..], b);
  }

  lemma DropAtSlash(a: string, b: string, k: nat)
    requires k <= |a|
    ensures (a + "/" + b)[k..] == a[k..] + "/" + b
  {
  }

  lemma TailAtSlash(a: string, b: string)
    requires a != ""
    ensures var s, k := a + "/" + b, IdentLen(a[1..]);
            s[0] == a[0] && IdentLen(s[1..]) == k && s[1..1 + k] == a[1..1 + k]
  {
    DropAtSlash(a, b, 1);
    IdentAtSlash(a[1..], b);
  }

  lemma StepAcross(a: string, b: string)
    requires a != ""
    ensures var s, k := a + "/" + b, Skip(a);
            && Skip(s) == k && s[k..] == a[k..] + "/" + b
            && SpecHere(s) == SpecHere(a) && TextHere(s) == TextHere(a)
  {
    MatchAtSlash(a, b);
    if MatchLen(a) > 0 {
      SpecAtSlash(a, b);
    }
  }

  lemma AtSlash(b: string)
    ensures SpecsIn("" + "/" + b) == SpecsIn(b) && Strip("" + "/" + b) == "" + "/" + Strip(b)
  {
    var s := "" + "/" + b;
    assert s[0] == '/' && s[1..] == b && MatchLen(s) == 0;
    assert [] + SpecsIn(b) == SpecsIn(b);
  }

  lemma Assoc<T>(a: seq<T>, b: seq<T>, c: seq<T>)
    ensures a + (b + c) == a + b + c
  {
  }

  lemma SpecsStep(s: string)
    requires s != ""
    ensures SpecsIn(s) == SpecHere(s) + SpecsIn(s[Skip(s)..])
  {
  }

  /** The pattern works piece by piece. */
  lemma {:induction false} SpecsAtSlash(a: string, b: string)
    ensures SpecsIn(a + "/" + b) == SpecsIn(a) + SpecsIn(b)
    decreases |a|
  {
    if a == "" {
      AtSlash(b);
      assert SpecsIn(a) + SpecsIn(b) == SpecsIn(b);
    } else {
      var tail := a[Skip(a)..];
      SpecsAtSlash(tail, b);
      StepAcross(a, b);
      SpecsStep(a);
      SpecsStep(a + "/" + b);
      Assoc(SpecHere(a), SpecsIn(tail), SpecsIn(b));
    }
  }

  lemma {:induction false} StripAtSlash(a: string, b: string)
    ensures Strip(a + "/" + b) == Strip(a) + "/" + Strip(b)
    decreases |a|
  {
    if a == "" {
      AtSlash(b);
    } else {
      var tail := a[Skip(a)..];
      StripAtSlash(tail, b);
      StepAcross(a, b);
      UrlPaths.Regroup(TextHere(a), Strip(tail), Strip(b));
    }
  }

  /** The characters of identifiers, by their ASCII codes. */
  lemma WordChars(c: char)
    ensures WordChar(c) <==> 48 <= c as int <= 57 || 65 <= c as int <= 90 || c as int == 95 || 97 <= c as int <= 122
    ensures IdentStart(c) <==> WordChar(c) && !(48 <= c as int <= 57)
  {
  }

  /** An identifier is word characters that do not start with a digit. */
  lemma Identifiers(n: string)
    ensures Ident(n) <==> n != "" && IdentStart(n[0]) && forall i :: 0 <= i < |n| ==> WordChar(n[i])
  {
    WordRunTake(n, WordRun(n));
    if forall i :: 0 <= i < |n| ==> WordChar(n[i]) {
      AllWord(n);
    }
  }

  lemma {:induction false} AllWord(n: string)
    requires forall i :: 0 <= i < |n| ==> WordChar(n[i])
    ensures WordRun(n) == |n|
  {
    if n != "" {
      AllWord(n[1..]);
    }
  }

  /** Conversely, every placeholder that is found is written so. */
  lemma MatchShape(s: string)
    requires MatchLen(s) > 0
    ensures Ident(NameIn(s)) && Ident(SpecIn(s))
    ensures s[..MatchLen(s)] == if s[1 + |NameIn(s)|] == '}' then "{" + NameIn(s) + "}"
                                else "{" + NameIn(s) + ":" + SpecIn(s) + "}"
    ensures s[1 + |NameIn(s)|] == '}' ==> SpecIn(s) == "str"
  {
    NameIsIdent(s);
    var n := IdentLen(s[1..]);
    if s[1 + n] == '}' {
      SpecTextIdent(StrConv);
      assert s[..n + 2] == "{" + NameIn(s) + "}";
    } else {
      ColonShape(s, n);
    }
  }

  lemma ColonShape(s: string, n: nat)
    requires MatchLen(s) > 0 && n == IdentLen(s[1..]) && s[1 + n] != '}'
    ensures Ident(SpecIn(s)) && s[..MatchLen(s)] == "{" + s[1..1 + n] + ":" + SpecIn(s) + "}"
  {
    var tail := s[1 + n..][1..];
    var k := IdentLen(tail);
    WordRunTake(tail, k);
    assert SpecIn(s) == tail[..k] && MatchLen(s) == n + k + 3;
    assert s[2 + n..2 + n + k] == tail[..k] && s[2 + n + k] == tail[k];
    Slices(s, n, k);
  }

  lemma Slices(s: string, n: nat, k: nat)
    requires n + k + 3 <= |s|
    ensures s[..n + k + 3] == [s[0]] + s[1..1 + n] + [s[1 + n]] + s[2 + n..2 + n + k] + [s[2 + n + k]]
  {
  }

  // ---- Why a written template is refused ------------------------------------------------------------

  function SpecsWritten(ps: seq<Piece>): (specs: seq<string>) {
    if ps == [] then []
    else (if ps[0].Plain? then [] else [SpecWritten(ps[0])]) + SpecsWritten(ps[1..])
  }

  function PlainOf(p: Piece): (text: string) { if p.Plain? then p.text else "" }

  function PlainTexts(ps: seq<Piece>): (texts: seq<string>) {
    if ps == [] then [] else [PlainOf(ps[0])] + PlainTexts(ps[1..])
  }

  lemma {:induction false} FindsInTexts(ps: seq<Piece>)
    requires PiecesOk(ps)
    ensures SpecsIn(Join(Texts(ps))) == SpecsWritten(ps) && Strip(Join(Texts(ps))) == Join(PlainTexts(ps))
  {
    if ps != [] {
      var rest := ps[1..];
      FindsInPiece(ps[0]);
      FindsInTexts(rest);
      assert Texts(ps)[1..] == Texts(rest) && PlainTexts(ps)[1..] == PlainTexts(rest);
      if rest == [] {
        assert SpecsWritten(ps) + [] == SpecsWritten(ps);
      } else {
        SpecsAtSlash(Spelling(ps[0]), Join(Texts(rest)));
        StripAtSlash(Spelling(ps[0]), Join(Texts(rest)));
      }
    }
  }

  lemma {:induction false} SpecsWrittenHas(ps: seq<Piece>, spec: string)
    ensures spec in SpecsWritten(ps) <==>
            exists i :: 0 <= i < |ps| && !ps[i].Plain? && spec == SpecWritten(ps[i])
  {
    if ps != [] {
      SpecsWrittenHas(ps[1..], spec);
      assert forall i :: 0 < i < |ps| ==> ps[i] == ps[1..][i - 1];
    }
  }

  lemma {:induction false} JoinHas(texts: seq<string>, c: char)
    requires c != '/'
    ensures c in Join(texts) <==> exists i :: 0 <= i < |texts| && c in texts[i]
  {
    if |texts| > 1 {
      JoinHas(texts[1..], c);
      assert forall i :: 0 < i < |texts| ==> texts[i] == texts[1..][i - 1];
      assert c in Join(texts) <==> c in texts[0] || c in Join(texts[1..]);
    }
  }

  lemma {:induction false} PlainTextsAt(ps: seq<Piece>)
    ensures |PlainTexts(ps)| == |ps| && forall i :: 0 <= i < |ps| ==> PlainTexts(ps)[i] == PlainOf(ps[i])
  {
    if ps != [] {
      PlainTextsAt(ps[1..]);
    }
  }

  const META: string := "^$*+?()[]|\\"

  predicate HasMeta(text: string) { exists c :: c in text && c in META }

  /** A registration is refused when the router is frozen, then for a method that is no token; a path that
      is neither a text nor a pattern is refused next, and a compiled pattern for nothing else. A written
      template is refused for an unknown converter, then for a metacharacter in its plain text,
      then for a wildcard that is not last, and for nothing else. */
  lemma RefusalMeaning(ps: seq<Piece>, frozen: bool, methods: seq<string>, pattern: Routers.Pattern)
    requires PiecesOk(ps)
    ensures frozen ==> forall path :: Routers.Refusal(frozen, path, methods) == Some(Routers.Frozen)
    ensures !frozen && (exists m :: m in methods && !Routers.MethodToken(m)) ==>
              forall path :: Routers.Refusal(frozen, path, methods) == Some(Routers.BadMethod)
    ensures !frozen && (forall m :: m in methods ==> Routers.MethodToken(m)) ==>
              && Routers.Refusal(frozen, Routers.OtherPath, methods) == Some(Routers.BadPathType)
              && Routers.Refusal(frozen, Routers.Compiled(pattern), methods).None?
              && Routers.Refusal(frozen, Routers.Template(TemplateOf(ps)), methods) == TemplateRefusal(ps)
  {
    TemplateRefused(ps, methods);
  }

  lemma TemplateRefused(ps: seq<Piece>, methods: seq<string>)
    requires PiecesOk(ps)
    ensures (forall m :: m in methods ==> Routers.MethodToken(m)) ==>
              Routers.Refusal(false, Routers.Template(TemplateOf(ps)), methods) == TemplateRefusal(ps)
  {
    ConvertersMeaning(ps);
    PlainMeaning(ps);
    WildcardMeaning(ps);
  }

  ghost function TemplateRefusal(ps: seq<Piece>): (why: Option<Routers.Rejection>) {
    if exists i :: 0 <= i < |ps| && ps[i].Unknown? then Some(Routers.UnknownConverter)
    else if exists i :: 0 <= i < |ps| && ps[i].Plain? && HasMeta(ps[i].text) then Some(Routers.RegexChars)
    else if WildLast(ps) then None else Some(Routers.MisplacedWildcard)
  }

  lemma TemplateFinds(ps: seq<Piece>)
    requires PiecesOk(ps)
    ensures SpecsIn(TemplateOf(ps)) == SpecsWritten(ps) && Strip(TemplateOf(ps)) == "/" + Join(PlainTexts(ps))
  {
    FindsInTexts(ps);
    SpecsAtSlash("", Join(Texts(ps)));
    StripAtSlash("", Join(Texts(ps)));
    assert "" + "/" + Join(Texts(ps)) == TemplateOf(ps);
  }

  lemma ConvertersMeaning(ps: seq<Piece>)
    requires PiecesOk(ps)
    ensures Routers.ConvertersKnown(TemplateOf(ps)) <==> forall i :: 0 <= i < |ps| ==> !ps[i].Unknown?
  {
    TemplateFinds(ps);
    forall i | 0 <= i < |ps| && !ps[i].Plain? ensures SpecWritten(ps[i]) in SpecsWritten(ps) {
      SpecsWrittenHas(ps, SpecWritten(ps[i]));
    }
    forall s | s in SpecsWritten(ps) ensures exists i :: 0 <= i < |ps| && !ps[i].Plain? && s == SpecWritten(ps[i]) {
      SpecsWrittenHas(ps, s);
    }
    forall i | 0 <= i < |ps| && !ps[i].Plain? ensures Routers.KnownConverter(SpecWritten(ps[i])) <==> ps[i].Param? {
      KnownIff(ps[i]);
    }
  }

  lemma KnownIff(p: Piece)
    requires PieceOk(p) && !p.Plain?
    ensures Routers.KnownConverter(SpecWritten(p)) <==> p.Param?
  {
    var known := ["str", "int", "uuid", "path"];
    assert known[0] in known && known[1] in known && known[2] in known && known[3] in known;
  }

  lemma PlainMeaning(ps: seq<Piece>)
    requires PiecesOk(ps)
    ensures Routers.PlainText(TemplateOf(ps)) <==> forall i :: 0 <= i < |ps| && ps[i].Plain? ==> !HasMeta(ps[i].text)
  {
    TemplateFinds(ps);
    var left := "/" + Join(PlainTexts(ps));
    forall c | c in META ensures c in left <==> InPlain(ps, c) {
      LeftHas(ps, c);
    }
    if i :| 0 <= i < |ps| && ps[i].Plain? && HasMeta(ps[i].text) {
      var c :| c in ps[i].text && c in META;
      assert InPlain(ps, c);
    }
  }

  ghost predicate InPlain(ps: seq<Piece>, c: char) { exists i :: 0 <= i < |ps| && ps[i].Plain? && c in ps[i].text }

  lemma LeftHas(ps: seq<Piece>, c: char)
    requires c != '/'
    ensures c in "/" + Join(PlainTexts(ps)) <==> InPlain(ps, c)
  {
    PlainTextsAt(ps);
    JoinHas(PlainTexts(ps), c);
    if i :| 0 <= i < |ps| && ps[i].Plain? && c in ps[i].text {
      assert c in PlainTexts(ps)[i];
    }
  }

  lemma WildcardMeaning(ps: seq<Piece>)
    requires PiecesOk(ps)
    ensures WildcardLast(Segments(TemplateOf(ps))) <==> WildLast(ps)
  {
    SegmentsOfTemplate(ps);
    TextsAt(ps);
    forall i | 0 <= i < |ps| ensures StepOf(Texts(ps)[i]).Rest? <==> Wild(ps[i]) {
      if ps[i].Plain? {
        PlainReads(ps[i].text);
      } else {
        ParamReads(ps[i]);
      }
    }
    if !WildLast(ps) {
      var i :| 0 <= i < |ps| - 1 && Wild(ps[i]);
      assert StepOf(Texts(ps)[i]).Rest?;
    }
  }

  // ---- The URL of a written template ----------------------------------------------------------------

  function Names(ps: seq<Piece>): (names: set<string>) {
    set i | 0 <= i < |ps| && !ps[i].Plain? :: ps[i].name
  }

  function Filled(p: Piece, texts: map<string, string>): (text: string) {
    if p.Plain? then p.text else if p.name in texts then texts[p.name] else ""
  }

  function FilledAll(ps: seq<Piece>, texts: map<string, string>): (out: seq<string>) {
    if ps == [] then [] else [Filled(ps[0], texts)] + FilledAll(ps[1..], texts)
  }

  lemma FilledPiece(p: Piece, texts: map<string, string>)
    requires PieceOk(p)
    ensures Substitute(Spelling(p), texts) == Filled(p, texts)
  {
    if p.Plain? {
      FindsNothing(p.text);
      NoNamesNoChange(p.text, texts);
    } else {
      ParamIsOneMatch(p);
      FilledWhole(Spelling(p), texts);
    }
  }

  lemma FilledWhole(s: string, texts: map<string, string>)
    requires 0 < |s| == MatchLen(s)
    ensures Substitute(s, texts) == if NameIn(s) in texts then texts[NameIn(s)] else ""
  {
    assert s[|s|..] == "" && Substitute("", texts) == "";
    assert Substitute(s, texts) == Head(s, texts) + "";
  }

  lemma {:induction false} FilledTexts(ps: seq<Piece>, texts: map<string, string>)
    requires PiecesOk(ps)
    ensures Rendered(Texts(ps), texts) == FilledAll(ps, texts)
  {
    if ps != [] {
      FilledPiece(ps[0], texts);
      FilledTexts(ps[1..], texts);
      assert Texts(ps)[1..] == Texts(ps[1..]);
    }
  }

  lemma {:induction false} NamesOfTexts(ps: seq<Piece>)
    requires PiecesOk(ps)
    ensures AllNames(Texts(ps)) == Names(ps)
  {
    if ps != [] {
      FindsInPiece(ps[0]);
      NamesOfTexts(ps[1..]);
      assert Texts(ps)[1..] == Texts(ps[1..]);
      NamesCons(ps);
    }
  }

  lemma NamesCons(ps: seq<Piece>)
    requires ps != []
    ensures Names(ps) == (if ps[0].Plain? then {} else {ps[0].name}) + Names(ps[1..])
  {
    var rest := ps[1..];
    assert forall i :: 0 <= i < |rest| ==> rest[i] == ps[i + 1];
    forall n | n in Names(ps) ensures (!ps[0].Plain? && n == ps[0].name) || n in Names(rest) {
      var i :| 0 <= i < |ps| && !ps[i].Plain? && n == ps[i].name;
      assert i > 0 ==> rest[i - 1] == ps[i];
    }
    forall n | n in Names(rest) ensures n in Names(ps) {
      var i :| 0 <= i < |rest| && !rest[i].Plain? && n == rest[i].name;
      assert ps[i + 1].name == n;
    }
  }

  function UrlWanted(ps: seq<Piece>, texts: map<string, string>): (r: UrlResult) {
    var missing := Names(ps) - texts.Keys;
    if missing != {} then MissingParams(missing) else Url("/" + Join(FilledAll(ps, texts)))
  }

  /** `url_path_for`: no route of the name; otherwise, for a written template, the names without a text, if
      there are any; otherwise the pieces with their texts put in, joined by slashes. */
  lemma UrlMeaning(named: map<string, string>, name: string, ps: seq<Piece>, texts: map<string, string>)
    requires PiecesOk(ps)
    ensures UrlPathFor(named, name, texts).UnknownRoute? <==> name !in named
    ensures name in named && named[name] == TemplateOf(ps) ==>
              UrlPathFor(named, name, texts) == UrlWanted(ps, texts)
  {
    SegmentsOfTemplate(ps);
    NamesOfTemplate(TemplateOf(ps));
    NamesOfTexts(ps);
    SubstituteAtSlash("", Join(Texts(ps)), texts);
    assert "" + "/" + Join(Texts(ps)) == TemplateOf(ps) && Substitute("", texts) == "";
    FilledTexts(ps, texts);
    if ps != [] {
      SubstituteJoin(Texts(ps), texts);
    }
    var rest := Join(FilledAll(ps, texts));
    assert "" + "/" + rest == "/" + rest;
  }
}
