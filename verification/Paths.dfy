/** Request and template paths: `str.split('/')`, `'/'.join`, and the segment list that
    the routing trie walks. */
module Paths {

  /** `path.split('/')`. */
  function Split(path: string): (parts: seq<string>)
    ensures |parts| >= 1
  {
    if path == "" then [""]
    else
      var rest := Split(path[1..]);
      if path[0] == '/' then [""] + rest else [[path[0]] + rest[0]] + rest[1..]
  }

  /** `'/'.join(parts)`. */
  function Join(parts: seq<string>): (path: string) {
    if parts == [] then ""
    else if |parts| == 1 then parts[0]
    else parts[0] + "/" + Join(parts[1..])
  }

  /** `[s for s in parts if s]`. */
  function DropEmpty(parts: seq<string>): (kept: seq<string>)
    ensures "" !in kept
  {
    if parts == [] then []
    else (if parts[0] == "" then [] else [parts[0]]) + DropEmpty(parts[1..])
  }

  /** The segments of a path: duplicate, leading and trailing slashes are dropped. */
  function Segments(path: string): (segs: seq<string>)
    ensures "" !in segs
  {
    DropEmpty(Split(path))
  }

  predicate SlashFree(s: string) { '/' !in s }

  predicate AllSlashFree(parts: seq<string>) { forall s :: s in parts ==> SlashFree(s) }

  /** What `split` and the filter may produce. */
  predicate Clean(segs: seq<string>) { AllSlashFree(segs) && "" !in segs }

  /** The test with which `lookup` recognises a canonical path. */
  predicate Canonical(path: string) {
    path != "" && path[|path| - 1] != '/' && NoDoubleSlash(path)
  }

  predicate NoDoubleSlash(path: string) {
    forall i :: 0 < i < |path| ==> path[i] != '/' || path[i - 1] != '/'
  }

  lemma {:induction false} SplitSlashFree(path: string)
    ensures AllSlashFree(Split(path))
  {
    if path != "" {
      SplitSlashFree(path[1..]);
      var rest := Split(path[1..]);
      assert rest[0] in rest;
      assert forall s :: s in rest[1..] ==> s in rest;
    }
  }

  lemma {:induction false} DropEmptySlashFree(parts: seq<string>)
    requires AllSlashFree(parts)
    ensures AllSlashFree(DropEmpty(parts))
  {
    if parts != [] {
      DropEmptySlashFree(parts[1..]);
    }
  }

  lemma SegmentsClean(path: string)
    ensures Clean(Segments(path))
  {
    SplitSlashFree(path);
    DropEmptySlashFree(Split(path));
  }

  /** Splitting one more character in front of split pieces. */
  function Prepend(c: char, parts: seq<string>): (more: seq<string>)
    requires parts != []
    ensures more != []
  {
    if c == '/' then [""] + parts else [[c] + parts[0]] + parts[1..]
  }

  lemma PrependAppend(c: char, front: seq<string>, back: seq<string>)
    requires front != []
    ensures Prepend(c, front + back) == Prepend(c, front) + back
  {
    if c == '/' {
      assert [""] + (front + back) == [""] + front + back;
    } else {
      assert (front + back)[1..] == front[1..] + back;
      assert [[c] + front[0]] + (front[1..] + back) == [[c] + front[0]] + front[1..] + back;
    }
  }

  lemma SplitStep(path: string)
    requires path != ""
    ensures Split(path) == Prepend(path[0], Split(path[1..]))
  {
  }

  lemma JoinPrepend(c: char, parts: seq<string>)
    requires parts != []
    ensures Join(Prepend(c, parts)) == [c] + Join(parts)
  {
    if c == '/' {
      assert ([""] + parts)[1..] == parts;
    } else if |parts| > 1 {
      var head := [c] + parts[0];
      assert ([head] + parts[1..])[1..] == parts[1..];
      assert head + "/" + Join(parts[1..]) == [c] + (parts[0] + "/" + Join(parts[1..]));
    }
  }

  /** Joining undoes splitting. */
  lemma {:induction false} JoinSplit(path: string)
    ensures Join(Split(path)) == path
  {
    if path != "" {
      JoinSplit(path[1..]);
      SplitStep(path);
      JoinPrepend(path[0], Split(path[1..]));
    }
  }

  /** Splitting distributes over a slash. */
  lemma {:induction false} SplitAppend(a: string, b: string)
    ensures Split(a + "/" + b) == Split(a) + Split(b)
  {
    var s := a + "/" + b;
    SplitStep(s);
    if a == "" {
      assert s[1..] == b;
    } else {
      assert s[1..] == a[1..] + "/" + b;
      SplitAppend(a[1..], b);
      SplitStep(a);
      PrependAppend(a[0], Split(a[1..]), Split(b));
    }
  }

  lemma {:induction false} SplitWhole(s: string)
    requires SlashFree(s)
    ensures Split(s) == [s]
  {
    if s != "" {
      SplitWhole(s[1..]);
      assert [s[0]] + s[1..] == s;
    }
  }

  /** Splitting undoes joining, for parts without slashes. */
  lemma {:induction false} SplitJoin(parts: seq<string>)
    requires parts != [] && AllSlashFree(parts)
    ensures Split(Join(parts)) == parts
  {
    if |parts| == 1 {
      SplitWhole(parts[0]);
    } else {
      SplitJoin(parts[1..]);
      SplitAppend(parts[0], Join(parts[1..]));
      SplitWhole(parts[0]);
      assert [parts[0]] + parts[1..] == parts;
    }
  }

  lemma {:induction false} DropEmptyAppend(a: seq<string>, b: seq<string>)
    ensures DropEmpty(a + b) == DropEmpty(a) + DropEmpty(b)
  {
    if a == [] {
      assert a + b == b;
    } else {
      var head := if a[0] == "" then [] else [a[0]];
      calc {
        DropEmpty(a + b);
        { assert (a + b)[0] == a[0] && (a + b)[1..] == a[1..] + b; }
        head + DropEmpty(a[1..] + b);
        { DropEmptyAppend(a[1..], b); }
        head + (DropEmpty(a[1..]) + DropEmpty(b));
        DropEmpty(a) + DropEmpty(b);
      }
    }
  }

  lemma {:induction false} DropEmptyIdentity(parts: seq<string>)
    requires "" !in parts
    ensures DropEmpty(parts) == parts
  {
    if parts != [] {
      DropEmptyIdentity(parts[1..]);
      assert [parts[0]] + parts[1..] == parts;
    }
  }

  /** The normalised form under which a static route is also indexed has the same segments. */
  lemma SegmentsOfNormalised(segs: seq<string>)
    requires Clean(segs)
    ensures Segments("/" + Join(segs)) == segs
  {
    SplitAppend("", Join(segs));
    assert "" + "/" + Join(segs) == "/" + Join(segs);
    if segs != [] {
      SplitJoin(segs);
    }
    assert segs == [] ==> Split(Join(segs)) == [""];
    DropEmptyAppend([""], Split(Join(segs)));
    DropEmptyIdentity(segs);
  }

  /** Split pieces after the first are empty only at a slash pair or at the end. */
  lemma {:induction false} NoEmptyPieces(path: string)
    requires path == "" || path[|path| - 1] != '/'
    requires NoDoubleSlash(path)
    ensures "" !in Split(path)[1..]
    ensures Split(path)[0] == "" <==> path == "" || path[0] == '/'
  {
    if path != "" {
      var tail := path[1..];
      forall i | 0 < i < |tail| ensures tail[i] != '/' || tail[i - 1] != '/' {
        assert tail[i] == path[i + 1];
      }
      NoEmptyPieces(tail);
      var rest := Split(tail);
      assert rest == [rest[0]] + rest[1..];
      if path[0] == '/' {
        assert Split(path)[1..] == rest;
        assert tail[0] == path[1];
      } else {
        assert Split(path)[1..] == rest[1..];
      }
    }
  }

  /** On a canonical path, stepping over the leading empty piece is the filtered segment list. */
  lemma CanonicalSegments(path: string)
    requires Canonical(path)
    ensures var start := if path[0] == '/' then 1 else 0;
            start <= |Split(path)| && Split(path)[start..] == Segments(path)
  {
    NoEmptyPieces(path);
    var parts := Split(path);
    assert parts == [parts[0]] + parts[1..];
    DropEmptyAppend([parts[0]], parts[1..]);
    DropEmptyIdentity(parts[1..]);
  }
}
