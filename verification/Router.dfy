/** The router: registration into the trie or the regex table, resolution over both, and the
    look-up cache in front. */
module Routers {
  import opened Options
  import opened Paths
  import opened Routes
  import opened Templates
  import opened RouteTries
  import opened LookupCaches
  import Placeholders

  /** A raw `re.Pattern`, known only by what it matches. */
  type Pattern = nat
  type Regex = (Pattern, string) -> Option<Params>

  datatype RegexRoute = RegexRoute(pattern: Pattern, methods: seq<string>, scheme: SchemeKey, handler: nat)

  datatype Key = Key(path: string, verb: string, scheme: Scheme)

  /** A resolved handler with its parameters, or the two look-up errors. */
  datatype Resolution = Found(hit: Hit) | NotAllowed(methods: set<string>) | NotRegistered

  datatype PathKey = Template(path: string) | Compiled(pattern: Pattern) | OtherPath

  datatype Rejection = Frozen | BadMethod | UnknownConverter | RegexChars | MisplacedWildcard | BadPathType

  // ---- What registration checks -------------------------------------------------------

  predicate TokenChar(c: char) {
    c in "!#$%&'*+-.^_`|~" || '0' <= c <= '9' || 'A' <= c <= 'Z' || 'a' <= c <= 'z'
  }

  /** They are the visible ASCII characters that are no delimiters (section 5.6.2 of RFC 9110). */
  lemma TokenChars(c: char)
    ensures TokenChar(c) <==> '!' <= c <= '~' && !Delimiter(c)
  {
  }

  predicate Delimiter(c: char) {
    || c == '"' || c == '(' || c == ')' || c == ',' || c == '/' || ':' <= c <= '@' || '[' <= c <= ']' || c == '{' || c == '}'
  }

  /** The token pattern anchored with `^` and `$`; `$` also matches before a final newline. */
  predicate MethodToken(m: string) {
    var body := if m != "" && m[|m| - 1] == '\n' then m[..|m| - 1] else m;
    body != "" && forall c :: c in body ==> TokenChar(c)
  }

  /** A method token (section 5.6.2 of RFC 9110). */
  predicate Token(m: string) { m != "" && forall c :: c in m ==> TokenChar(c) }

  /** The pattern accepts exactly the tokens, except that it also accepts a token with one newline after it. */
  lemma MethodTokenExact(m: string)
    ensures (MethodToken(m) <==> Token(m)) <==> !(m != "" && m[|m| - 1] == '\n' && Token(m[..|m| - 1]))
    ensures MethodToken("GET\n") && !Token("GET\n")
  {
    if m != "" && m[|m| - 1] == '\n' {
      assert m[|m| - 1] in m && !TokenChar('\n');
    }
    var get := "GET\n";
    assert get[..3] == "GET" && get[3] in get && !TokenChar('\n');
  }

  predicate KnownConverter(spec: string) { spec in ["str", "int", "uuid", "path"] }

  predicate RegexChar(c: char) { c in "^$*+?()[]|\\" }

  predicate AllTokens(methods: seq<string>) { forall m :: m in methods ==> MethodToken(m) }

  predicate ConvertersKnown(t: string) { forall s :: s in Placeholders.SpecsIn(t) ==> KnownConverter(s) }

  predicate PlainText(t: string) { forall c :: c in Placeholders.Strip(t) ==> !RegexChar(c) }

  /** Why a registration is refused, checks in source order. */
  function Refusal(frozen: bool, path: PathKey, methods: seq<string>): (why: Option<Rejection>) {
    if frozen then Some(Frozen)
    else if !AllTokens(methods) then Some(BadMethod)
    else match path
      case Template(t) =>
        if !ConvertersKnown(t) then Some(UnknownConverter)
        else if !PlainText(t) then Some(RegexChars)
        else if !WildcardLast(Segments(t)) then Some(MisplacedWildcard)
        else None
      case Compiled(_) => None
      case OtherPath => Some(BadPathType)
  }

  // ---- Resolution over the tables, without any cache ------------------------------------

  predicate RegexOffers(r: RegexRoute, key: Key, regex: Regex) {
    regex(r.pattern, key.path).Some? && SchemeMatches(key.scheme, r.scheme)
  }

  predicate RegexServes(r: RegexRoute, key: Key, regex: Regex) {
    RegexOffers(r, key, regex) && key.verb in r.methods
  }

  /** The first regex route, in table order, that matches and has the method. */
  function RegexHit(table: seq<RegexRoute>, key: Key, regex: Regex): (hit: Option<Hit>) {
    if table == [] then None
    else
      var n := |table| - 1;
      var before := RegexHit(table[..n], key, regex);
      if before.Some? then before
      else if RegexServes(table[n], key, regex) then
        Some(Hit(table[n].handler, regex(table[n].pattern, key.path).value))
      else None
  }

  function RegexMethods(table: seq<RegexRoute>, key: Key, regex: Regex): (methods: set<string>) {
    set r, m | r in table && RegexOffers(r, key, regex) && m in r.methods :: m
  }

  /** The whole routing table as a value. */
  datatype Table = Table(log: seq<Route>, regexes: seq<RegexRoute>, frozen: bool)

  /** Every string route first, by a scan of the registrations; then the regex routes; then 405
      with the union of the offered methods, or 404. */
  function Resolve(t: Table, key: Key, conv: Convert, regex: Regex): (r: Resolution) {
    var o := ScanOutcome(t.log, Query(Segments(key.path), key.verb, key.scheme, conv));
    if o.hit.Some? then Found(o.hit.value)
    else
      var hit := RegexHit(t.regexes, key, regex);
      if hit.Some? then Found(hit.value)
      else
        var allowed := o.allowed + RegexMethods(t.regexes, key, regex);
        if allowed != {} then NotAllowed(allowed) else NotRegistered
  }

  /** A string route has the answer: it serves the request, and beats every other that does. */
  ghost predicate StringAnswer(t: Table, q: Query, hit: Hit) {
    exists k: nat :: IsBest(t.log, q, k) && hit == HitFrom(t.log[k], q)
  }

  /** A regex route has it: the first that matches, with the groups of its match as parameters. */
  ghost predicate RegexAnswer(t: Table, key: Key, regex: Regex, hit: Hit) {
    exists k: nat :: IsFirstRegex(t.regexes, key, regex, k)
                     && hit == Hit(t.regexes[k].handler, regex(t.regexes[k].pattern, key.path).value)
  }

  predicate IsFirstRegex(table: seq<RegexRoute>, key: Key, regex: Regex, k: nat) {
    k < |table| && RegexServes(table[k], key, regex) && forall j :: 0 <= j < k ==> !RegexServes(table[j], key, regex)
  }

  /** Some string or regex route that matches path, scheme and converters has the method. */
  ghost predicate OfferedSomewhere(t: Table, key: Key, q: Query, regex: Regex, m: string) {
    || (exists r :: r in t.log && Offers(r, q) && m in r.entry.methods)
    || (exists r :: r in t.regexes && RegexOffers(r, key, regex) && m in r.methods)
  }

  /** What each outcome says. The best string route answers; without one, the first regex route that serves,
      with the groups of its match. A 405 carries exactly the methods of the string and regex routes that
      match path, scheme and converters, and never the requested one. */
  lemma ResolutionMeaning(t: Table, key: Key, conv: Convert, regex: Regex)
    ensures var q := Query(Segments(key.path), key.verb, key.scheme, conv);
            match Resolve(t, key, conv, regex)
            case Found(hit) =>
              if exists r :: r in t.log && Serves(r, q) then StringAnswer(t, q, hit) else RegexAnswer(t, key, regex, hit)
            case NotAllowed(methods) =>
              && methods != {} && key.verb !in methods
              && forall m :: m in methods <==> OfferedSomewhere(t, key, q, regex, m)
            case NotRegistered => forall m :: !OfferedSomewhere(t, key, q, regex, m)
  {
    var q := Query(Segments(key.path), key.verb, key.scheme, conv);
    PickIsBest(t.log, q);
    var first := RegexHitMeaning(t.regexes, key, regex);
    if k: nat :| IsBest(t.log, q, k) {
      assert t.log[k] in t.log;
    }
    match Resolve(t, key, conv, regex)
    case Found(_) =>
    case _ => MissMeaning(t, key, q, regex);
  }

  lemma MissMeaning(t: Table, key: Key, q: Query, regex: Regex)
    ensures var methods := OfferedMethods(t.log, q) + RegexMethods(t.regexes, key, regex);
            forall m :: m in methods <==> OfferedSomewhere(t, key, q, regex, m)
  {
  }

  lemma {:induction false} RegexHitMeaning(table: seq<RegexRoute>, key: Key, regex: Regex) returns (k: nat)
    ensures match RegexHit(table, key, regex)
            case None => forall i :: 0 <= i < |table| ==> !RegexServes(table[i], key, regex)
            case Some(hit) => IsFirstRegex(table, key, regex, k)
                              && hit == Hit(table[k].handler, regex(table[k].pattern, key.path).value)
  {
    k := 0;
    if table != [] {
      var n := |table| - 1;
      k := RegexHitMeaning(table[..n], key, regex);
      assert forall j :: 0 <= j < n ==> table[j] == table[..n][j];
      if RegexHit(table[..n], key, regex).None? {
        k := n;
      }
    }
  }

  /** `_raw_regex[key] = value`: the same key keeps its place and takes the new handler. */
  function PutRegex(table: seq<RegexRoute>, r: RegexRoute): (now: seq<RegexRoute>) {
    if table == [] then [r]
    else if table[0].(handler := r.handler) == r then [r] + table[1..]
    else [table[0]] + PutRegex(table[1..], r)
  }

  /** The dictionary key of a regex route. */
  predicate SameKey(a: RegexRoute, b: RegexRoute) { a.pattern == b.pattern && a.methods == b.methods && a.scheme == b.scheme }

  /** A known key is replaced where it stands, a new one goes to the end, and every other entry stays. */
  lemma {:induction false} PutKnown(table: seq<RegexRoute>, r: RegexRoute, i: nat)
    requires i < |table| && SameKey(table[i], r) && forall j :: 0 <= j < i ==> !SameKey(table[j], r)
    ensures PutRegex(table, r) == table[i := r]
  {
    if i > 0 {
      PutKnown(table[1..], r, i - 1);
      assert !SameKey(table[0], r);
    }
  }

  lemma {:induction false} PutNew(table: seq<RegexRoute>, r: RegexRoute)
    requires forall i :: 0 <= i < |table| ==> !SameKey(table[i], r)
    ensures PutRegex(table, r) == table + [r]
  {
    if table != [] {
      PutNew(table[1..], r);
      assert !SameKey(table[0], r);
      assert table == [table[0]] + table[1..];
    }
  }

  /** The table after a registration attempt; a refused one changes nothing. */
  function AfterRegister(t: Table, path: PathKey, methods: seq<string>, scheme: SchemeKey, handler: nat): (now: Table) {
    if Refusal(t.frozen, path, methods).Some? then t
    else match path
      case Template(p) => t.(log := t.log + [RouteFor(p, methods, scheme, handler)])
      case Compiled(p) => t.(regexes := PutRegex(t.regexes, RegexRoute(p, methods, scheme, handler)))
      case OtherPath => t
  }

  // ---- The object -----------------------------------------------------------------------

  class Router {
    const trie: RouteTrie
    const cache: LookupCache<Key, Hit>
    const regex: Regex
    var rawRegex: seq<RegexRoute>
    var frozen: bool

    ghost function Tables(): Table
      reads this, trie
    {
      Table(trie.log, rawRegex, frozen)
    }

    /** Every cached hit is the current answer. */
    ghost predicate CacheOk()
      reads this, trie, cache
    {
      forall k :: k in cache.store ==> Resolve(Tables(), k, trie.conv, regex) == Found(cache.store[k])
    }

    ghost predicate Valid()
      reads this, trie, trie.nodes, cache
    {
      trie.Valid() && cache.Valid() && CacheOk()
    }

    constructor (cacheMax: int, conv: Convert, regex: Regex)
      ensures Valid() && Tables() == Table([], [], false) && trie.conv == conv && this.regex == regex
      ensures fresh(trie) && fresh(cache) && fresh(trie.nodes)
    {
      trie := new RouteTrie(conv);
      cache := new LookupCache(cacheMax);
      this.regex := regex;
      rawRegex, frozen := [], false;
    }

    /** `_resolve`. */
    method ResolveKey(key: Key) returns (r: Resolution)
      requires trie.Valid()
      ensures r == Resolve(Tables(), key, trie.conv, regex)
    {
      var o := trie.Lookup(key.path, key.verb, key.scheme);
      if o.hit.Some? {
        return Found(o.hit.value);
      }
      if rawRegex == [] {
        return if o.allowed != {} then NotAllowed(o.allowed) else NotRegistered;
      }
      var hit, methods := ScanRegexes(key);
      if hit.Some? {
        return Found(hit.value);
      }
      var allowed := o.allowed + methods;
      r := if allowed != {} then NotAllowed(allowed) else NotRegistered;
    }

    /** The fallback scan over the raw patterns. */
    method ScanRegexes(key: Key) returns (hit: Option<Hit>, methods: set<string>)
      ensures hit == RegexHit(rawRegex, key, regex)
      ensures hit.None? ==> methods == RegexMethods(rawRegex, key, regex)
    {
      hit, methods := None, {};
      for i := 0 to |rawRegex|
        invariant RegexHit(rawRegex[..i], key, regex).None?
        invariant methods == RegexMethods(rawRegex[..i], key, regex)
      {
        var e := rawRegex[i];
        assert rawRegex[..i + 1] == rawRegex[..i] + [e] && rawRegex[..i + 1][..i] == rawRegex[..i];
        RegexMethodsSnoc(rawRegex[..i], e, key, regex);
        var groups := regex(e.pattern, key.path);
        if groups.None? || !SchemeMatches(key.scheme, e.scheme) { continue; }
        methods := methods + set m | m in e.methods;
        if key.verb in e.methods {
          RegexHitPrefix(rawRegex, key, regex, i + 1);
          return Some(Hit(e.handler, groups.value)), methods;
        }
      }
      assert rawRegex[..|rawRegex|] == rawRegex;
    }

    /** `_cache_get`. */
    method Recall(key: Key) returns (cached: Option<Hit>)
      requires cache.Valid() && CacheOk()
      modifies cache
      ensures cache.Valid() && CacheOk()
      ensures cached.Some? ==> Resolve(Tables(), key, trie.conv, regex) == Found(cached.value)
      ensures cache.cacheMax == old(cache.cacheMax)
    {
      cached := cache.Get(key);
    }

    /** `_cache_set`. */
    method Remember(key: Key, hit: Hit)
      requires cache.Valid() && CacheOk() && Resolve(Tables(), key, trie.conv, regex) == Found(hit)
      modifies cache
      ensures cache.Valid() && CacheOk()
      ensures cache.cacheMax == old(cache.cacheMax)
    {
      cache.Set(key, hit);
    }

    /** `__getitem__`: the cached answer is the answer. */
    method Get(key: Key) returns (r: Resolution)
      requires Valid()
      modifies cache
      ensures Valid() && r == Resolve(Tables(), key, trie.conv, regex)
      ensures cache.cacheMax == old(cache.cacheMax)
    {
      var cached := Recall(key);
      if cached.Some? {
        return Found(cached.value);
      }
      r := ResolveKey(key);
      if r.Found? {
        Remember(key, r.hit);
      }
    }

    /** `__setitem__`. The cache is emptied before the checks run, so a refused registration
        costs cached entries but changes no answer. */
    method SetItem(path: PathKey, methods: seq<string>, scheme: SchemeKey, handler: nat) returns (why: Option<Rejection>)
      requires Valid()
      modifies this`rawRegex, trie, trie.nodes, cache
      ensures Valid() && fresh(trie.nodes - old(trie.nodes))
      ensures why == Refusal(frozen, path, methods)
      ensures Tables() == AfterRegister(old(Tables()), path, methods, scheme, handler)
    {
      if frozen {
        return Some(Frozen);
      }
      cache.Clear();
      if !AllTokens(methods) {
        return Some(BadMethod);
      }
      match path {
        case Template(t) =>
          why := SetTemplate(t, methods, scheme, handler);
        case Compiled(p) =>
          rawRegex := PutRegex(rawRegex, RegexRoute(p, methods, scheme, handler));
          why := None;
        case OtherPath =>
          why := Some(BadPathType);
      }
    }

    /** The arm for string paths, with the cache just emptied. */
    method SetTemplate(t: string, methods: seq<string>, scheme: SchemeKey, handler: nat) returns (why: Option<Rejection>)
      requires Valid() && cache.store == map[]
      modifies trie, trie.nodes
      ensures Valid() && fresh(trie.nodes - old(trie.nodes))
      ensures why == if !ConvertersKnown(t) then Some(UnknownConverter) else if !PlainText(t) then Some(RegexChars)
                     else if !WildcardLast(Segments(t)) then Some(MisplacedWildcard) else None
      ensures trie.log == if why.None? then old(trie.log) + [RouteFor(t, methods, scheme, handler)] else old(trie.log)
    {
      if !ConvertersKnown(t) {
        return Some(UnknownConverter);
      }
      if !PlainText(t) {
        return Some(RegexChars);
      }
      var ok := trie.Insert(t, methods, scheme, handler);
      why := if ok then None else Some(MisplacedWildcard);
    }

    method SetCacheMax(value: int)
      requires Valid()
      modifies cache
      ensures Valid() && cache.cacheMax == value
    {
      cache.SetMax(value);
    }

    method Freeze()
      requires Valid()
      modifies this`frozen
      ensures Valid() && Tables() == old(Tables()).(frozen := true)
    {
      frozen := true;
      assert forall k :: Resolve(Tables(), k, trie.conv, regex) == Resolve(old(Tables()), k, trie.conv, regex);
    }
  }

  // ---- Whole runs -----------------------------------------------------------------------

  datatype Op =
    | Register(path: PathKey, methods: seq<string>, scheme: SchemeKey, handler: nat)
    | Lookup(key: Key)
    | Retune(cap: int)
    | Seal

  datatype Reply = Registered(why: Option<Rejection>) | Resolved(r: Resolution) | Done

  /** One operation on the bare tables: no trie, no cache. */
  function RefStep(t: Table, op: Op, conv: Convert, regex: Regex): (r: (Table, Reply)) {
    match op
    case Register(path, methods, scheme, handler) =>
      (AfterRegister(t, path, methods, scheme, handler), Registered(Refusal(t.frozen, path, methods)))
    case Lookup(key) => (t, Resolved(Resolve(t, key, conv, regex)))
    case Retune(_) => (t, Done)
    case Seal => (t.(frozen := true), Done)
  }

  function RefRun(t: Table, ops: seq<Op>, conv: Convert, regex: Regex): (r: (Table, seq<Reply>)) {
    if ops == [] then (t, [])
    else
      var n := |ops| - 1;
      var before := RefRun(t, ops[..n], conv, regex);
      var step := RefStep(before.0, ops[n], conv, regex);
      (step.0, before.1 + [step.1])
  }

  // ---- What a run registers -------------------------------------------------------------

  /** The operation at `i` registers a route: no seal came before, and nothing is wrong with it. */
  predicate Accepted(ops: seq<Op>, i: nat)
    requires i < |ops|
  {
    ops[i].Register? && Refusal(Seal in ops[..i], ops[i].path, ops[i].methods).None?
  }

  function StringOf(op: Op, taken: bool): (log: seq<Route>) {
    if taken && op.Register? && op.path.Template? then [RouteFor(op.path.path, op.methods, op.scheme, op.handler)] else []
  }

  /** The string routes that the first `n` operations register, in order. */
  function Strings(ops: seq<Op>, n: nat): (log: seq<Route>)
    requires n <= |ops|
  {
    if n == 0 then []
    else
      var op := ops[n - 1];
      Strings(ops, n - 1) + StringOf(op, Accepted(ops, n - 1))
  }

  /** The operation at `i` registers a regex route with the key of `r`. */
  predicate RegistersKey(ops: seq<Op>, i: nat, r: RegexRoute)
    requires i < |ops|
  {
    Accepted(ops, i) && ops[i].path == Compiled(r.pattern) && ops[i].methods == r.methods && ops[i].scheme == r.scheme
  }

  /** Among the first `n` operations the last that registers the key of `r` gives it this handler. */
  ghost predicate IsLatest(ops: seq<Op>, n: nat, r: RegexRoute)
    requires n <= |ops|
  {
    exists i: nat :: i < n && RegistersKey(ops, i, r) && ops[i].handler == r.handler
                     && forall j: nat :: i < j < n ==> !RegistersKey(ops, j, r)
  }

  ghost predicate KeysApart(table: seq<RegexRoute>) {
    forall i, j :: 0 <= i < j < |table| ==> !SameKey(table[i], table[j])
  }

  /** The tables after the first `n` operations, read off them: the accepted string routes in order, and for
      each key of an accepted regex route its latest handler. */
  ghost predicate TablesOf(t: Table, ops: seq<Op>, n: nat)
    requires n <= |ops|
  {
    && (t.frozen <==> Seal in ops[..n]) && t.log == Strings(ops, n)
    && PatternsOf(t.regexes, ops, n)
  }

  ghost predicate PatternsOf(table: seq<RegexRoute>, ops: seq<Op>, n: nat)
    requires n <= |ops|
  {
    KeysApart(table) && forall r :: r in table <==> IsLatest(ops, n, r)
  }

  lemma {:induction false} RunTables(ops: seq<Op>, n: nat, conv: Convert, regex: Regex)
    requires n <= |ops|
    ensures TablesOf(RefRun(Table([], [], false), ops[..n], conv, regex).0, ops, n)
  {
    if n > 0 {
      RunTables(ops, n - 1, conv, regex);
      RefRunStep(ops, n, conv, regex);
      StepTables(RefRun(Table([], [], false), ops[..n - 1], conv, regex).0, ops, n, conv, regex);
    }
  }

  lemma RefRunStep(ops: seq<Op>, n: nat, conv: Convert, regex: Regex)
    requires 0 < n <= |ops|
    ensures var none := Table([], [], false);
            RefRun(none, ops[..n], conv, regex).0 == RefStep(RefRun(none, ops[..n - 1], conv, regex).0, ops[n - 1], conv, regex).0
  {
    assert ops[..n][..n - 1] == ops[..n - 1];
  }

  lemma StepTables(t: Table, ops: seq<Op>, n: nat, conv: Convert, regex: Regex)
    requires 0 < n <= |ops| && TablesOf(t, ops, n - 1)
    ensures TablesOf(RefStep(t, ops[n - 1], conv, regex).0, ops, n)
  {
    StepStrings(t, ops, n, conv, regex);
    StepPatterns(t, ops, n, conv, regex);
  }

  lemma StepStrings(t: Table, ops: seq<Op>, n: nat, conv: Convert, regex: Regex)
    requires 0 < n <= |ops| && (t.frozen <==> Seal in ops[..n - 1]) && t.log == Strings(ops, n - 1)
    ensures var now := RefStep(t, ops[n - 1], conv, regex).0;
            (now.frozen <==> Seal in ops[..n]) && now.log == Strings(ops, n)
  {
    StepEffect(t, ops[n - 1], conv, regex);
    assert ops[..n] == ops[..n - 1] + [ops[n - 1]];
  }

  lemma StepPatterns(t: Table, ops: seq<Op>, n: nat, conv: Convert, regex: Regex)
    requires 0 < n <= |ops| && (t.frozen <==> Seal in ops[..n - 1])
    requires PatternsOf(t.regexes, ops, n - 1)
    ensures PatternsOf(RefStep(t, ops[n - 1], conv, regex).0.regexes, ops, n)
  {
    StepEffect(t, ops[n - 1], conv, regex);
    if Accepted(ops, n - 1) && ops[n - 1].path.Compiled? {
      StepRegexes(t.regexes, ops, n);
    } else {
      forall r ensures IsLatest(ops, n, r) <==> IsLatest(ops, n - 1, r) {
        LatestKept(ops, n, r);
      }
    }
  }

  /** What one operation changes. */
  lemma StepEffect(t: Table, op: Op, conv: Convert, regex: Regex)
    ensures var now := RefStep(t, op, conv, regex).0;
            var taken := op.Register? && Refusal(t.frozen, op.path, op.methods).None?;
            && (now.frozen <==> t.frozen || op.Seal?)
            && (taken ==> op.path.Template? || op.path.Compiled?)
            && now.log == t.log + StringOf(op, taken)
            && now.regexes == if taken && op.path.Compiled?
                              then PutRegex(t.regexes, RegexRoute(op.path.pattern, op.methods, op.scheme, op.handler))
                              else t.regexes
  {
  }

  lemma StepRegexes(table: seq<RegexRoute>, ops: seq<Op>, n: nat)
    requires 0 < n <= |ops| && Accepted(ops, n - 1) && ops[n - 1].path.Compiled?
    requires PatternsOf(table, ops, n - 1)
    ensures var op := ops[n - 1];
            PatternsOf(PutRegex(table, RegexRoute(op.path.pattern, op.methods, op.scheme, op.handler)), ops, n)
  {
    var op := ops[n - 1];
    var put := RegexRoute(op.path.pattern, op.methods, op.scheme, op.handler);
    PutMembers(table, put);
    forall r ensures IsLatest(ops, n, r) <==> if SameKey(r, put) then r == put else IsLatest(ops, n - 1, r) {
      LatestPut(ops, n, r, put);
    }
  }

  lemma LatestKept(ops: seq<Op>, n: nat, r: RegexRoute)
    requires 0 < n <= |ops| && !RegistersKey(ops, n - 1, r)
    ensures IsLatest(ops, n, r) <==> IsLatest(ops, n - 1, r)
  {
  }

  lemma LatestPut(ops: seq<Op>, n: nat, r: RegexRoute, put: RegexRoute)
    requires 0 < n <= |ops| && Accepted(ops, n - 1)
    requires var op := ops[n - 1]; op.path.Compiled? && put == RegexRoute(op.path.pattern, op.methods, op.scheme, op.handler)
    ensures IsLatest(ops, n, r) <==> if SameKey(r, put) then r == put else IsLatest(ops, n - 1, r)
  {
    if SameKey(r, put) {
      assert RegistersKey(ops, n - 1, r);
    } else {
      LatestKept(ops, n, r);
    }
  }

  /** Putting replaces the entry of the key, and keeps keys apart. */
  lemma PutMembers(table: seq<RegexRoute>, put: RegexRoute)
    requires KeysApart(table)
    ensures var now := PutRegex(table, put);
            KeysApart(now) && forall r :: r in now <==> if SameKey(r, put) then r == put else r in table
  {
    var now := PutRegex(table, put);
    if i :| 0 <= i < |table| && SameKey(table[i], put) {
      PutKnown(table, put, i);
      forall r ensures r in now <==> if SameKey(r, put) then r == put else r in table {
        if r in table && !SameKey(r, put) {
          var j :| 0 <= j < |table| && table[j] == r;
          assert now[j] == r;
        }
        assert now[i] == put;
      }
    } else {
      PutNew(table, put);
    }
  }

  /** The cached router gives, over any run of operations, the replies of the bare tables. */
  method Run(router: Router, ops: seq<Op>) returns (replies: seq<Reply>)
    requires router.Valid()
    modifies router, router.trie, router.trie.nodes, router.cache
    ensures router.Valid()
    ensures (router.Tables(), replies) == RefRun(old(router.Tables()), ops, router.trie.conv, router.regex)
  {
    replies := [];
    for i := 0 to |ops|
      invariant router.Valid() && fresh(router.trie.nodes - old(router.trie.nodes))
      invariant (router.Tables(), replies) == RefRun(old(router.Tables()), ops[..i], router.trie.conv, router.regex)
    {
      assert ops[..i + 1][..i] == ops[..i];
      var reply := Perform(router, ops[i]);
      replies := replies + [reply];
    }
    assert ops[..|ops|] == ops;
  }

  method Perform(router: Router, op: Op) returns (reply: Reply)
    requires router.Valid()
    modifies router, router.trie, router.trie.nodes, router.cache
    ensures router.Valid() && fresh(router.trie.nodes - old(router.trie.nodes))
    ensures (router.Tables(), reply) == RefStep(old(router.Tables()), op, router.trie.conv, router.regex)
  {
    match op {
      case Register(path, methods, scheme, handler) =>
        var why := router.SetItem(path, methods, scheme, handler);
        reply := Registered(why);
      case Lookup(key) =>
        var r := router.Get(key);
        reply := Resolved(r);
      case Retune(cap) =>
        router.SetCacheMax(cap);
        reply := Done;
      case Seal =>
        router.Freeze();
        reply := Done;
    }
  }

  lemma {:induction false} RegexHitPrefix(table: seq<RegexRoute>, key: Key, regex: Regex, i: nat)
    requires i <= |table| && RegexHit(table[..i], key, regex).Some?
    ensures RegexHit(table, key, regex) == RegexHit(table[..i], key, regex)
    decreases |table|
  {
    var n := |table|;
    if i == n {
      assert table[..i] == table;
    } else {
      assert table[..n - 1][..i] == table[..i];
      RegexHitPrefix(table[..n - 1], key, regex, i);
    }
  }

  lemma RegexMethodsSnoc(table: seq<RegexRoute>, r: RegexRoute, key: Key, regex: Regex)
    ensures RegexMethods(table + [r], key, regex)
         == RegexMethods(table, key, regex) + (if RegexOffers(r, key, regex) then set m | m in r.methods else {})
  {
    assert forall x :: x in table + [r] <==> x in table || x == r;
  }
}
