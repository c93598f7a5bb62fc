/** Responses on the native send channel and as ASGI dictionaries: the adapter in front of the channel,
    the boundary behind it, and streamed bodies. */
module Responses {
  import opened Options
  import opened Headers

  /** A native message: any combination of header, file, body and trailers. */
  datatype Native = Native(
    status: int, header: Option<seq<Pair>>, body: Option<Bytes>, moreBody: bool,
    trailers: Option<seq<Pair>>, expectsTrailers: bool, filePath: Option<string>)

  const BLANK := Native(200, None, None, false, None, false, None)

  /** An ASGI dictionary. An absent key is `None`; an event of any other type is only told apart from the
      rest. */
  datatype Asgi =
    | Start(status: Option<int>, headers: Option<seq<Pair>>, trailers: Option<bool>)
    | Body(body: Option<Bytes>, moreBody: Option<bool>)
    | Trailers(fields: Option<seq<Pair>>, moreTrailers: Option<bool>)
    | PathSend(path: string)
    | OtherEvent(id: nat)

  /** Whatever a handler may hand to `send`, streams apart. */
  datatype Message =
    | Dict(event: Asgi)
    | Channel(native: Native)
    | Whole(status: int, headers: seq<Pair>, body: Bytes)

  function Or<T>(o: Option<T>, default: T): (v: T) { if o.Some? then o.value else default }

  /** `wrap_native_send`: everything but the events it does not know becomes native. A `Response` and the
      three-argument form are both `Whole`. */
  function Adapt(m: Message): (out: Message) {
    match m
    case Whole(status, headers, body) => Channel(BLANK.(status := status, header := Some(headers), body := Some(body)))
    case Channel(_) => m
    case Dict(Start(status, headers, trailers)) =>
      Channel(BLANK.(status := Or(status, 200), header := Some(Or(headers, [])), expectsTrailers := Or(trailers, false)))
    case Dict(Body(body, more)) => Channel(BLANK.(body := Some(Or(body, [])), moreBody := Or(more, false)))
    case Dict(Trailers(fields, _)) => Channel(BLANK.(trailers := Some(Or(fields, []))))
    case Dict(_) => m
  }

  /** `NativeResponse.to_asgi`: the list is built by appending. Its events are in wire order, one of a kind,
      and say all that the message says. */
  method ToAsgi(n: Native) returns (events: seq<Asgi>)
    ensures events == Events(n)
    ensures InWireOrder(events) && Reassembled(events, |events|) == Visible(n)
  {
    EventsInOrder(n);
    EventsSayAll(n);
    events := [];
    if n.header.Some? {
      events := events + [Start(Some(n.status), n.header, if n.expectsTrailers then Some(true) else None)];
    }
    if n.filePath.Some? {
      events := events + [PathSend(n.filePath.value)];
    }
    if n.body.Some? {
      events := events + [Body(n.body, Some(n.moreBody))];
    }
    if n.trailers.Some? {
      events := events + [Trailers(n.trailers, None)];
    }
  }

  function StartOf(n: Native): (events: seq<Asgi>) {
    if n.header.None? then [] else [Start(Some(n.status), n.header, if n.expectsTrailers then Some(true) else None)]
  }

  function FileOf(n: Native): (events: seq<Asgi>) {
    if n.filePath.None? then [] else [PathSend(n.filePath.value)]
  }

  function BodyOf(n: Native): (events: seq<Asgi>) {
    if n.body.None? then [] else [Body(n.body, Some(n.moreBody))]
  }

  function TrailersOf(n: Native): (events: seq<Asgi>) {
    if n.trailers.None? then [] else [Trailers(n.trailers, None)]
  }

  function Events(n: Native): (events: seq<Asgi>) { StartOf(n) + FileOf(n) + BodyOf(n) + TrailersOf(n) }

  function Rank(e: Asgi): (r: nat) {
    match e
    case Start(_, _, _) => 0
    case PathSend(_) => 1
    case Body(_, _) => 2
    case Trailers(_, _) => 3
    case OtherEvent(_) => 4
  }

  ghost predicate InWireOrder(events: seq<Asgi>) {
    forall i, j :: 0 <= i < j < |events| ==> Rank(events[i]) < Rank(events[j])
  }

  /** What a server has learnt from an event on top of what it knew. */
  function Learnt(n: Native, e: Asgi): (m: Native) {
    match e
    case Start(status, headers, trailers) =>
      n.(status := Or(status, 200), header := Some(Or(headers, [])), expectsTrailers := Or(trailers, false))
    case Body(body, more) => n.(body := Some(Or(body, [])), moreBody := Or(more, false))
    case Trailers(fields, _) => n.(trailers := Some(Or(fields, [])))
    case PathSend(path) => n.(filePath := Some(path))
    case OtherEvent(_) => n
  }

  /** What it has learnt from the first `k` events. */
  function Reassembled(events: seq<Asgi>, k: nat): (n: Native)
    requires k <= |events|
  {
    if k == 0 then BLANK else Learnt(Reassembled(events, k - 1), events[k - 1])
  }

  /** A status without a header and a continuation without a body say nothing. */
  function Visible(n: Native): (v: Native) {
    var v := if n.header.Some? then n else n.(status := BLANK.status, expectsTrailers := BLANK.expectsTrailers);
    if n.body.Some? then v else v.(moreBody := BLANK.moreBody)
  }

  lemma OrderOne(events: seq<Asgi>, more: seq<Asgi>, r: nat)
    requires InWireOrder(events) && forall e :: e in events ==> Rank(e) < r
    requires |more| <= 1 && forall e :: e in more ==> Rank(e) == r
    ensures InWireOrder(events + more) && forall e :: e in events + more ==> Rank(e) < r + 1
  {
  }

  lemma {:induction false} ReassembledPrefix(a: seq<Asgi>, b: seq<Asgi>, k: nat)
    requires k <= |a|
    ensures Reassembled(a + b, k) == Reassembled(a, k)
  {
    if k > 0 {
      ReassembledPrefix(a, b, k - 1);
    }
  }

  /** At most one more event. */
  lemma LearnOne(events: seq<Asgi>, more: seq<Asgi>)
    requires |more| <= 1
    ensures var was := Reassembled(events, |events|);
            Reassembled(events + more, |events + more|) == if more == [] then was else Learnt(was, more[0])
  {
    ReassembledPrefix(events, more, |events|);
    if more == [] {
      assert events + more == events;
    } else {
      assert (events + more)[|events|] == more[0];
    }
  }

  lemma EventsInOrder(n: Native)
    ensures InWireOrder(Events(n))
  {
    var a, b, c, d := StartOf(n), FileOf(n), BodyOf(n), TrailersOf(n);
    OrderOne([], a, 0);
    assert [] + a == a;
    OrderOne(a, b, 1);
    OrderOne(a + b, c, 2);
    OrderOne(a + b + c, d, 3);
  }

  lemma EventsSayAll(n: Native)
    ensures Reassembled(Events(n), |Events(n)|) == Visible(n)
  {
    var a, b, c, d := StartOf(n), FileOf(n), BodyOf(n), TrailersOf(n);
    LearnOne([], a);
    assert [] + a == a;
    var one := Reassembled(a, |a|);
    LearnOne(a, b);
    assert Reassembled(a + b, |a + b|) == one.(filePath := n.filePath);
    LearnOne(a + b, c);
    LearnOne(a + b + c, d);
  }

  /** What one message becomes at the external boundary. The adapter has turned `Whole` into a native
      message before. */
  function Emitted(m: Message): (events: seq<Asgi>) {
    match Adapt(m)
    case Channel(n) => Events(n)
    case Dict(e) => [e]
  }

  function Again(e: Asgi): (events: seq<Asgi>) { Emitted(Dict(e)) }

  /** A sequence of dictionaries sent through adapter and boundary. */
  function Through(events: seq<Asgi>): (out: seq<Asgi>) { Flat(Again, events) }

  // ---- Mapping over sequences -------------------------------------------------------------------

  function Each<A, B>(f: A -> B, s: seq<A>): (t: seq<B>) {
    seq(|s|, i requires 0 <= i < |s| => f(s[i]))
  }

  function Flat<A, B>(f: A -> seq<B>, s: seq<A>): (t: seq<B>) {
    if s == [] then [] else Flat(f, s[..|s| - 1]) + f(s[|s| - 1])
  }

  lemma {:induction false} FlatSingle<A, B>(g: A -> seq<B>, h: A -> B, s: seq<A>)
    requires forall i :: 0 <= i < |s| ==> g(s[i]) == [h(s[i])]
    ensures Flat(g, s) == Each(h, s)
  {
    if s != [] {
      var n := |s| - 1;
      FlatSingle(g, h, s[..n]);
      assert Each(h, s) == Each(h, s[..n]) + [h(s[n])];
    }
  }

  lemma {:induction false} FlatAll<A, B>(f: A -> seq<B>, p: B -> bool, s: seq<A>)
    requires forall i, j :: 0 <= i < |s| && 0 <= j < |f(s[i])| ==> p(f(s[i])[j])
    ensures forall k :: 0 <= k < |Flat(f, s)| ==> p(Flat(f, s)[k])
  {
    if s != [] {
      FlatAll(f, p, s[..|s| - 1]);
    }
  }

  lemma FlatSnoc<A, B>(f: A -> seq<B>, s: seq<A>, a: A)
    ensures Flat(f, s + [a]) == Flat(f, s) + f(a)
  {
    assert (s + [a])[..|s|] == s;
  }

  // ---- Round trips ------------------------------------------------------------------------------

  /** The form in which an event comes back: the defaults that the adapter fills in, and a trailers event
      without its continuation flag. */
  function Returned(e: Asgi): (r: Asgi) {
    match e
    case Start(status, headers, trailers) =>
      Start(Some(Or(status, 200)), Some(Or(headers, [])), if Or(trailers, false) then Some(true) else None)
    case Body(body, more) => Body(Some(Or(body, [])), Some(Or(more, false)))
    case Trailers(fields, _) => Trailers(Some(Or(fields, [])), None)
    case _ => e
  }

  /** An event with every default of the ASGI specification written out: two events say the same to a
      server exactly when these agree. */
  function Meaning(e: Asgi): (r: Asgi) {
    match e
    case Start(status, headers, trailers) => Start(Some(Or(status, 200)), Some(Or(headers, [])), Some(Or(trailers, false)))
    case Body(body, more) => Body(Some(Or(body, [])), Some(Or(more, false)))
    case Trailers(fields, more) => Trailers(Some(Or(fields, [])), Some(Or(more, false)))
    case _ => e
  }

  predicate MoreTrailers(e: Asgi) { e.Trailers? && Or(e.moreTrailers, false) }

  lemma ReturnedOne(e: Asgi)
    ensures Emitted(Dict(e)) == [Returned(e)]
    ensures Meaning(Returned(e)) == Meaning(e) <==> !MoreTrailers(e)
  {
    assert Emitted(Dict(e)) == [Returned(e)];
    if e.Trailers? {
      assert Meaning(Returned(e)).moreTrailers == Some(false);
      assert Meaning(e).moreTrailers == Some(MoreTrailers(e));
    }
  }

  /** Every sequence of dictionaries sent by a handler leaves the boundary one for one; it says what it
      said before exactly when no event announces more trailers. */
  lemma DictsComeBack(events: seq<Asgi>)
    ensures Through(events) == Each(Returned, events)
    ensures Each(Meaning, Each(Returned, events)) == Each(Meaning, events) <==>
            forall i :: 0 <= i < |events| ==> !MoreTrailers(events[i])
  {
    forall i | 0 <= i < |events| ensures Again(events[i]) == [Returned(events[i])] {
      ReturnedOne(events[i]);
    }
    FlatSingle(Again, Returned, events);
    var back, was := Each(Meaning, Each(Returned, events)), Each(Meaning, events);
    forall i | 0 <= i < |events| ensures back[i] == was[i] <==> !MoreTrailers(events[i]) {
      ReturnedOne(events[i]);
    }
    assert back == was <==> forall i :: 0 <= i < |events| ==> back[i] == was[i];
  }

  /** A trailers event that announces another one loses the announcement. */
  lemma ContinuationLost()
    ensures Emitted(Dict(Trailers(Some([]), Some(true)))) == [Trailers(Some([]), None)]
    ensures Meaning(Trailers(Some([]), None)) != Meaning(Trailers(Some([]), Some(true)))
  {
  }

  predicate Fixed(e: Asgi) { Returned(e) == e }

  lemma EventsFixed(n: Native)
    ensures forall j :: 0 <= j < |Events(n)| ==> Fixed(Events(n)[j])
  {
    var a, b, c, d := StartOf(n), FileOf(n), BodyOf(n), TrailersOf(n);
    assert Events(n) == a + b + c + d;
    assert forall e :: e in a || e in b || e in c || e in d ==> Fixed(e);
    assert forall j :: 0 <= j < |Events(n)| ==> Events(n)[j] in a + b + c + d;
  }

  /** For every sequence of native messages, expanding, adapting again and expanding once more gives the
      same events. */
  lemma NativeComesBack(natives: seq<Native>)
    ensures var events := Flat(Events, natives); Through(events) == events
  {
    var events := Flat(Events, natives);
    forall i | 0 <= i < |natives| ensures forall j :: 0 <= j < |Events(natives[i])| ==> Fixed(Events(natives[i])[j]) {
      EventsFixed(natives[i]);
    }
    FlatAll(Events, Fixed, natives);
    DictsComeBack(events);
    assert Each(Returned, events) == events;
  }

  /** Adapters nest around middleware; a second one changes nothing. */
  lemma AdaptTwice(m: Message)
    ensures Adapt(Adapt(m)) == Adapt(m) && Emitted(Adapt(m)) == Emitted(m)
  {
  }

  /** A whole response leaves as the start and body dictionaries that a handler could have sent. */
  lemma WholeIsStartAndBody(status: int, headers: seq<Pair>, body: Bytes)
    ensures Emitted(Whole(status, headers, body)) ==
            Through([Start(Some(status), Some(headers), None), Body(Some(body), None)])
  {
    var pair := [Start(Some(status), Some(headers), None), Body(Some(body), None)];
    DictsComeBack(pair);
    assert Each(Returned, pair) == [Returned(pair[0]), Returned(pair[1])];
  }

  // ---- Streaming --------------------------------------------------------------------------------

  function Same(chunk: Bytes): (c: Bytes) { chunk }

  function Concat(chunks: seq<Bytes>): (all: Bytes) { Flat(Same, chunks) }

  /** The bytes of a body event; other events carry none. */
  function Carried(e: Asgi): (b: Bytes) { if e.Body? then Or(e.body, []) else [] }

  predicate Ends(e: Asgi) { e.Body? && !Or(e.moreBody, false) }

  function NonEmpty(chunks: seq<Bytes>): (some: seq<Bytes>) {
    if chunks == [] then []
    else
      var n := |chunks| - 1;
      NonEmpty(chunks[..n]) + (if chunks[n] == [] then [] else [chunks[n]])
  }

  /** Each chunk by itself, in order: an empty one is dropped, any other is kept. */
  lemma {:induction false} NonEmptyParts(before: seq<Bytes>, chunk: Bytes, after: seq<Bytes>)
    ensures NonEmpty(before + [chunk] + after) ==
            NonEmpty(before) + (if |chunk| == 0 then [] else [chunk]) + NonEmpty(after)
  {
    if after == [] {
      assert before + [chunk] + after == before + [chunk];
      NonEmptySnoc(before, chunk);
    } else {
      var n := |after| - 1;
      assert after == after[..n] + [after[n]];
      assert before + [chunk] + after == (before + [chunk] + after[..n]) + [after[n]];
      NonEmptyParts(before, chunk, after[..n]);
      NonEmptySnoc(before + [chunk] + after[..n], after[n]);
      NonEmptySnoc(after[..n], after[n]);
    }
  }

  lemma NonEmptySnoc(before: seq<Bytes>, chunk: Bytes)
    ensures NonEmpty(before + [chunk]) == NonEmpty(before) + (if |chunk| == 0 then [] else [chunk])
  {
    assert (before + [chunk])[..|before|] == before;
  }

  function Chunk(bytes: Bytes): (e: Asgi) { Body(Some(bytes), Some(true)) }

  const CONTENT_TYPE: Bytes := [99, 111, 110, 116, 101, 110, 116, 45, 116, 121, 112, 101]

  /** The caller's headers, with a content type in front when they have none in any spelling. */
  function WithType(headers: seq<Pair>, mediaType: Bytes): (all: seq<Pair>) {
    if FieldsOf(headers, CONTENT_TYPE) == [] then [(CONTENT_TYPE, mediaType)] + headers else headers
  }

  /** A content type in any spelling keeps the headers as they are; otherwise one is put in front. */
  lemma WithTypeMeaning(headers: seq<Pair>, mediaType: Bytes, typed: Bytes)
    requires |typed| == 12 && forall i :: 0 <= i < 12 ==> typed[i] == "content-type"[i] as int
    ensures WithType(headers, mediaType) ==
            if exists i :: 0 <= i < |headers| && SameIgnoringCase(headers[i].0, typed) then headers
            else [(typed, mediaType)] + headers
  {
    assert typed == CONTENT_TYPE && Lower(typed) == typed;
    FieldsExist(headers, typed);
  }

  /** The events of a stream before its end: the start, then one body for each non-empty chunk. */
  function Streamed(status: int, headers: seq<Pair>, chunks: seq<Bytes>): (events: seq<Asgi>) {
    [Start(Some(status), Some(headers), None)] + Each(Chunk, NonEmpty(chunks))
  }

  /** `StreamingResponse.__call__` as the boundary sees it: one event per non-empty chunk, all the bytes in
      order, and exactly the last event ends the response. */
  method Stream(status: int, headers: seq<Pair>, mediaType: Bytes, chunks: seq<Bytes>) returns (events: seq<Asgi>)
    ensures events == Streamed(status, WithType(headers, mediaType), chunks) + [Body(Some([]), Some(false))]
    ensures Flat(Carried, events) == Concat(chunks)
    ensures forall i :: 0 <= i < |events| ==> (Ends(events[i]) <==> i == |events| - 1)
  {
    var all := AddType(headers, mediaType);
    events := SendStart(status, all);
    assert events == Streamed(status, all, chunks[..0]);
    for k := 0 to |chunks|
      invariant events == Streamed(status, all, chunks[..k])
    {
      StreamedSnoc(status, all, chunks, k);
      if chunks[k] != [] {
        var sent := SendChunk(chunks[k], true);
        events := events + [sent];
      }
    }
    assert chunks[..|chunks|] == chunks;
    var last := SendChunk([], false);
    StreamedCarries(status, all, chunks);
    StreamedOpen(status, all, chunks);
    FlatSnoc(Carried, events, last);
    assert Concat(chunks) + [] == Concat(chunks);
    events := events + [last];
  }

  /** `send(NativeResponse(status=status, header=headers))`. */
  method SendStart(status: int, headers: seq<Pair>) returns (events: seq<Asgi>)
    ensures events == [Start(Some(status), Some(headers), None)]
  {
    events := ToAsgi(BLANK.(status := status, header := Some(headers)));
    assert events == [Start(Some(status), Some(headers), None)];
  }

  /** `send(NativeResponse(body=chunk, more_body=more))`. */
  method SendChunk(chunk: Bytes, more: bool) returns (e: Asgi)
    ensures e == Body(Some(chunk), Some(more))
  {
    var events := ToAsgi(BLANK.(body := Some(chunk), moreBody := more));
    assert events == [Body(Some(chunk), Some(more))];
    e := events[0];
  }

  method AddType(headers: seq<Pair>, mediaType: Bytes) returns (all: seq<Pair>)
    ensures all == WithType(headers, mediaType)
  {
    var known := ViewGetList(headers, CONTENT_TYPE);
    assert Lower(CONTENT_TYPE) == CONTENT_TYPE;
    all := if known == [] then [(CONTENT_TYPE, mediaType)] + headers else headers;
  }

  lemma StreamedSnoc(status: int, headers: seq<Pair>, chunks: seq<Bytes>, k: nat)
    requires k < |chunks|
    ensures Streamed(status, headers, chunks[..k + 1]) ==
            Streamed(status, headers, chunks[..k]) + (if chunks[k] == [] then [] else [Chunk(chunks[k])])
  {
    assert chunks[..k + 1][..k] == chunks[..k];
    var some := NonEmpty(chunks[..k]);
    assert Each(Chunk, some + [chunks[k]]) == Each(Chunk, some) + [Chunk(chunks[k])];
  }

  lemma StreamedOpen(status: int, headers: seq<Pair>, chunks: seq<Bytes>)
    ensures var events := Streamed(status, headers, chunks); forall i :: 0 <= i < |events| ==> !Ends(events[i])
  {
    var events := Streamed(status, headers, chunks);
    forall i | 0 <= i < |events| ensures !Ends(events[i]) {
      assert i > 0 ==> events[i] == Chunk(NonEmpty(chunks)[i - 1]);
    }
  }

  /** Skipping empty chunks loses nothing. */
  lemma {:induction false} StreamedCarries(status: int, headers: seq<Pair>, chunks: seq<Bytes>)
    ensures Flat(Carried, Streamed(status, headers, chunks)) == Concat(chunks)
  {
    if chunks == [] {
      assert Streamed(status, headers, chunks) == [] + [Start(Some(status), Some(headers), None)];
      FlatSnoc(Carried, [], Start(Some(status), Some(headers), None));
    } else {
      var n := |chunks| - 1;
      StreamedCarries(status, headers, chunks[..n]);
      StreamedSnoc(status, headers, chunks, n);
      assert chunks[..n + 1] == chunks;
      CarriesOneMore(Streamed(status, headers, chunks[..n]), chunks[..n], chunks[n]);
      assert chunks == chunks[..n] + [chunks[n]];
    }
  }

  lemma CarriesOneMore(events: seq<Asgi>, chunks: seq<Bytes>, chunk: Bytes)
    requires Flat(Carried, events) == Concat(chunks)
    ensures Flat(Carried, events + (if chunk == [] then [] else [Chunk(chunk)])) == Concat(chunks + [chunk])
  {
    FlatSnoc(Same, chunks, chunk);
    if chunk == [] {
      assert events + [] == events && Concat(chunks) + [] == Concat(chunks);
    } else {
      FlatSnoc(Carried, events, Chunk(chunk));
    }
  }
}
