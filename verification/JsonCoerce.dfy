/** Turning parsed JSON into dataclass instances by annotation, and handler results back into
    JSON. Class definitions are data, so a class may refer to itself. */
module JsonCoerce {
  import opened Options

  datatype Prim = Flag(b: bool) | Whole(n: int) | Float(r: real) | Chars(s: string)

  datatype Json = JNull | JPrim(p: Prim) | JArray(items: seq<Json>) | JObject(members: map<string, Json>)

  /** A Python value; an instance carries its class name and its fields. */
  datatype Py =
    | PNone
    | PPrim(p: Prim)
    | PList(items: seq<Py>)
    | PTuple(items: seq<Py>)
    | PDict(members: map<string, Py>)
    | PObj(cls: string, fields: map<string, Py>)

  /** An annotation with forward references resolved. `Plain` is everything that is passed through:
      primitives and whatever is not recognised. */
  datatype Ann =
    | Plain
    | Dataclass(cls: string)
    | ListOf(item: Ann)
    | TupleOf(item: Ann)
    | DictOf(item: Ann)
    | Opt(item: Ann)

  datatype Field = Field(name: string, ann: Ann, default: Option<Py>)

  type Classes = map<string, seq<Field>>

  /** `None` stands for a raised TypeError. */
  type Outcome = Option<Py>

  // ---- Serialising -------------------------------------------------------------------------------

  /** `dataclasses.asdict`: instances become dictionaries all the way down; containers keep their type. */
  function AsDict(v: Py): (w: Py) {
    match v
    case PObj(_, fields) => PDict(map k | k in fields :: AsDict(fields[k]))
    case PList(items) => PList(seq(|items|, i requires 0 <= i < |items| => AsDict(items[i])))
    case PTuple(items) => PTuple(seq(|items|, i requires 0 <= i < |items| => AsDict(items[i])))
    case PDict(members) => PDict(map k | k in members :: AsDict(members[k]))
    case _ => v
  }

  /** `_to_jsonable`: outside an instance, tuples become lists. */
  function ToJsonable(v: Py): (w: Py) {
    match v
    case PObj(_, _) => AsDict(v)
    case PList(items) => PList(seq(|items|, i requires 0 <= i < |items| => ToJsonable(items[i])))
    case PTuple(items) => PList(seq(|items|, i requires 0 <= i < |items| => ToJsonable(items[i])))
    case PDict(members) => PDict(map k | k in members :: ToJsonable(members[k]))
    case _ => v
  }

  /** `json.dumps` then `json.loads`: tuples become arrays, and an instance cannot be dumped. */
  function Wire(v: Py): (j: Option<Json>) {
    match v
    case PNone => Some(JNull)
    case PPrim(p) => Some(JPrim(p))
    case PList(items) => WireAll(v, items)
    case PTuple(items) => WireAll(v, items)
    case PDict(members) =>
      if forall k :: k in members ==> Wire(members[k]).Some?
      then Some(JObject(map k | k in members :: Wire(members[k]).value)) else None
    case PObj(_, _) => None
  }

  function WireAll(v: Py, items: seq<Py>): (j: Option<Json>)
    requires forall i :: 0 <= i < |items| ==> items[i] < v
    decreases v, 0
  {
    if forall i :: 0 <= i < |items| ==> Wire(items[i]).Some?
    then Some(JArray(seq(|items|, i requires 0 <= i < |items| => Wire(items[i]).value))) else None
  }

  /** The JSON form of a value, read off its structure. */
  function JsonOf(v: Py): (j: Json) {
    match v
    case PNone => JNull
    case PPrim(p) => JPrim(p)
    case PList(items) => JArray(seq(|items|, i requires 0 <= i < |items| => JsonOf(items[i])))
    case PTuple(items) => JArray(seq(|items|, i requires 0 <= i < |items| => JsonOf(items[i])))
    case PDict(members) => JObject(map k | k in members :: JsonOf(members[k]))
    case PObj(_, fields) => JObject(map k | k in fields :: JsonOf(fields[k]))
  }

  lemma WireArray(v: Py, js: seq<Json>)
    requires (v.PList? || v.PTuple?) && |v.items| == |js|
    requires forall i :: 0 <= i < |js| ==> Wire(v.items[i]) == Some(js[i])
    ensures Wire(v) == Some(JArray(js))
  {
    var r := WireAll(v, v.items);
    assert r.Some? && r.value.items == js;
  }

  lemma WireObject(v: Py, js: map<string, Json>)
    requires v.PDict? && v.members.Keys == js.Keys
    requires forall k :: k in js ==> Wire(v.members[k]) == Some(js[k])
    ensures Wire(v) == Some(JObject(js))
  {
    var r := Wire(v);
    assert r.Some? && r.value.members == js;
  }

  lemma {:induction false} AsDictWires(v: Py)
    ensures Wire(AsDict(v)) == Some(JsonOf(v))
  {
    if v.PObj? {
      forall k | k in v.fields { AsDictWires(v.fields[k]); }
      WireObject(AsDict(v), JsonOf(v).members);
    } else if v.PDict? {
      forall k | k in v.members { AsDictWires(v.members[k]); }
      WireObject(AsDict(v), JsonOf(v).members);
    } else if v.PList? || v.PTuple? {
      forall i | 0 <= i < |v.items| { AsDictWires(v.items[i]); }
      WireArray(AsDict(v), JsonOf(v).items);
    }
  }

  /** Every value can be sent, and arrives as its JSON form. */
  lemma {:induction false} JsonableWires(v: Py)
    ensures Wire(ToJsonable(v)) == Some(JsonOf(v))
  {
    if v.PObj? {
      AsDictWires(v);
    } else if v.PDict? {
      forall k | k in v.members { JsonableWires(v.members[k]); }
      WireObject(ToJsonable(v), JsonOf(v).members);
    } else if v.PList? || v.PTuple? {
      forall i | 0 <= i < |v.items| { JsonableWires(v.items[i]); }
      WireArray(ToJsonable(v), JsonOf(v).items);
    }
  }

  /** Neither an instance nor, if `tuples` is not allowed, a tuple anywhere. */
  ghost predicate Free(v: Py, tuples: bool) {
    match v
    case PObj(_, _) => false
    case PList(items) => forall i :: 0 <= i < |items| ==> Free(items[i], tuples)
    case PTuple(items) => tuples && forall i :: 0 <= i < |items| ==> Free(items[i], tuples)
    case PDict(members) => forall k :: k in members ==> Free(members[k], tuples)
    case _ => true
  }

  /** `asdict` leaves no instance, and changes nothing where there is none. */
  lemma {:induction false} AsDictFree(v: Py)
    ensures Free(AsDict(v), true) && (Free(v, true) ==> AsDict(v) == v)
  {
    if v.PObj? {
      forall k | k in v.fields { AsDictFree(v.fields[k]); }
    } else if v.PDict? {
      forall k | k in v.members { AsDictFree(v.members[k]); }
      assert Free(v, true) ==> AsDict(v).members == v.members;
    } else if v.PList? || v.PTuple? {
      forall i | 0 <= i < |v.items| { AsDictFree(v.items[i]); }
      assert Free(v, true) ==> AsDict(v).items == v.items;
    }
  }

  /** What is handed to `json.dumps` has no instance; and no tuple either, unless one stood in an instance. */
  lemma {:induction false} JsonableFree(v: Py)
    ensures Free(ToJsonable(v), true) && (Free(v, true) ==> Free(ToJsonable(v), false))
  {
    if v.PObj? {
      AsDictFree(v);
    } else if v.PDict? {
      forall k | k in v.members { JsonableFree(v.members[k]); }
    } else if v.PList? || v.PTuple? {
      forall i | 0 <= i < |v.items| { JsonableFree(v.items[i]); }
    }
  }

  // ---- Coercing ------------------------------------------------------------------------------------

  /** Parsed JSON as Python sees it. */
  function Verbatim(j: Json): (v: Py) {
    match j
    case JNull => PNone
    case JPrim(p) => PPrim(p)
    case JArray(items) => PList(seq(|items|, i requires 0 <= i < |items| => Verbatim(items[i])))
    case JObject(members) => PDict(map k | k in members :: Verbatim(members[k]))
  }

  /** It holds lists and dictionaries only. */
  lemma {:induction false} VerbatimFree(j: Json)
    ensures Free(Verbatim(j), false)
  {
    if j.JArray? {
      forall i | 0 <= i < |j.items| { VerbatimFree(j.items[i]); }
    } else if j.JObject? {
      forall k | k in j.members { VerbatimFree(j.members[k]); }
    }
  }

  function FieldNames(fields: seq<Field>): (names: set<string>) {
    set f | f in fields :: f.name
  }

  /** The field of a given name; the last one, as a later declaration replaces an earlier one. */
  function FieldNamed(fields: seq<Field>, name: string): (f: Field)
    requires name in FieldNames(fields)
    ensures f in fields && f.name == name
  {
    var n := |fields| - 1;
    if fields[n].name == name then fields[n]
    else
      assert exists f :: f in fields[..n] && f.name == name by {
        var f :| f in fields && f.name == name;
        assert f in fields[..n];
      }
      FieldNamed(fields[..n], name)
  }

  lemma {:induction false} LastDeclared(fields: seq<Field>, name: string) returns (i: nat)
    requires name in FieldNames(fields)
    ensures i < |fields| && fields[i] == FieldNamed(fields, name) && fields[i].name == name
    ensures forall j :: i < j < |fields| ==> fields[j].name != name
  {
    var n := |fields| - 1;
    if fields[n].name == name {
      return n;
    }
    var f :| f in fields && f.name == name;
    assert f in fields[..n];
    i := LastDeclared(fields[..n], name);
  }

  /** `_coerce_value`. Each call goes to a part of the value, or keeps the value and goes to a part of
      the annotation, so it ends even for classes that contain themselves. */
  function Coerce(types: Classes, ann: Ann, j: Json): (r: Outcome)
    decreases j, 2, ann
  {
    if j.JNull? then Some(PNone)
    else match ann
      case Dataclass(cls) => if j.JObject? && cls in types then Instantiate(types, cls, j) else None
      case Opt(item) => Coerce(types, item, j)
      case ListOf(item) =>
        if !j.JArray? then None
        else
          var items := CoerceItems(types, item, j);
          if items.None? then None else Some(PList(items.value))
      case TupleOf(item) =>
        if !j.JArray? then None
        else
          var items := CoerceItems(types, item, j);
          if items.None? then None else Some(PTuple(items.value))
      case DictOf(item) =>
        if !j.JObject? then None
        else if forall k :: k in j.members ==> Coerce(types, item, j.members[k]).Some? then
          Some(PDict(map k | k in j.members :: Coerce(types, item, j.members[k]).value))
        else None
      case Plain => Some(Verbatim(j))
  }

  function CoerceItems(types: Classes, item: Ann, j: Json): (r: Option<seq<Py>>)
    requires j.JArray?
    decreases j, 1
  {
    if forall i :: 0 <= i < |j.items| ==> Coerce(types, item, j.items[i]).Some?
    then Some(seq(|j.items|, i requires 0 <= i < |j.items| => Coerce(types, item, j.items[i]).value))
    else None
  }

  /** `_instantiate_dataclass`: unknown keys are refused, present fields are coerced, absent ones take
      their default, and a field with neither makes the constructor fail. */
  function Instantiate(types: Classes, cls: string, j: Json): (r: Outcome)
    requires j.JObject? && cls in types
    decreases j, 1
  {
    var fields := types[cls];
    if !(j.members.Keys <= FieldNames(fields)) then None
    else if forall k :: k in FieldNames(fields) ==> FieldValue(types, fields, j, k).Some? then
      Some(PObj(cls, map k | k in FieldNames(fields) :: FieldValue(types, fields, j, k).value))
    else None
  }

  function FieldValue(types: Classes, fields: seq<Field>, j: Json, k: string): (r: Outcome)
    requires j.JObject? && k in FieldNames(fields)
    decreases j, 0
  {
    var f := FieldNamed(fields, k);
    if k in j.members then Coerce(types, f.ann, j.members[k]) else f.default
  }

  // ---- Round trip --------------------------------------------------------------------------------------

  /** A value of the annotated type. */
  ghost predicate WellTyped(types: Classes, ann: Ann, v: Py)
    decreases v, ann
  {
    match ann
    case Plain => v.PPrim?
    case Dataclass(cls) =>
      && v.PObj? && v.cls == cls && cls in types && v.fields.Keys == FieldNames(types[cls])
      && forall k :: k in v.fields ==> WellTyped(types, FieldNamed(types[cls], k).ann, v.fields[k])
    case ListOf(item) => v.PList? && forall i :: 0 <= i < |v.items| ==> WellTyped(types, item, v.items[i])
    case TupleOf(item) => v.PTuple? && forall i :: 0 <= i < |v.items| ==> WellTyped(types, item, v.items[i])
    case DictOf(item) => v.PDict? && forall k :: k in v.members ==> WellTyped(types, item, v.members[k])
    case Opt(item) => v.PNone? || WellTyped(types, item, v)
  }

  lemma {:induction false} CoerceJsonOf(types: Classes, ann: Ann, v: Py)
    requires WellTyped(types, ann, v)
    ensures Coerce(types, ann, JsonOf(v)) == Some(v)
    decreases v, ann
  {
    match ann {
      case Plain =>
      case Opt(item) =>
        if !v.PNone? { CoerceJsonOf(types, item, v); }
      case ListOf(item) =>
        forall i | 0 <= i < |v.items| ensures Coerce(types, item, JsonOf(v).items[i]) == Some(v.items[i]) {
          CoerceJsonOf(types, item, v.items[i]);
        }
        assert CoerceItems(types, item, JsonOf(v)).value == v.items;
      case TupleOf(item) =>
        forall i | 0 <= i < |v.items| ensures Coerce(types, item, JsonOf(v).items[i]) == Some(v.items[i]) {
          CoerceJsonOf(types, item, v.items[i]);
        }
        assert CoerceItems(types, item, JsonOf(v)).value == v.items;
      case DictOf(item) =>
        forall k | k in v.members ensures Coerce(types, item, JsonOf(v).members[k]) == Some(v.members[k]) {
          CoerceJsonOf(types, item, v.members[k]);
        }
        assert Coerce(types, ann, JsonOf(v)).value.members == v.members;
      case Dataclass(cls) =>
        var fields, j := types[cls], JsonOf(v);
        forall k | k in v.fields ensures FieldValue(types, fields, j, k) == Some(v.fields[k]) {
          CoerceJsonOf(types, FieldNamed(fields, k).ann, v.fields[k]);
        }
        assert Instantiate(types, cls, j).value.fields == v.fields;
    }
  }

  /** Sending a well-typed value and coercing what arrives gives the value back. */
  lemma JsonRoundTrip(types: Classes, ann: Ann, v: Py)
    requires WellTyped(types, ann, v)
    ensures Wire(ToJsonable(v)).Some?
    ensures Coerce(types, ann, Wire(ToJsonable(v)).value) == Some(v)
  {
    JsonableWires(v);
    CoerceJsonOf(types, ann, v);
  }

  // ---- Which documents are accepted --------------------------------------------------------------------

  /** A document that the annotation allows: null anywhere; arrays and objects where lists, tuples and
      dictionaries are wanted, with allowed items; and for a dataclass an object with declared keys only,
      allowed values, and a default for every field it leaves out. */
  ghost predicate Accepts(types: Classes, ann: Ann, j: Json)
    decreases j, ann
  {
    j.JNull? ||
    match ann
    case Plain => true
    case Opt(item) => Accepts(types, item, j)
    case ListOf(item) => j.JArray? && forall i :: 0 <= i < |j.items| ==> Accepts(types, item, j.items[i])
    case TupleOf(item) => j.JArray? && forall i :: 0 <= i < |j.items| ==> Accepts(types, item, j.items[i])
    case DictOf(item) => j.JObject? && forall k :: k in j.members ==> Accepts(types, item, j.members[k])
    case Dataclass(cls) =>
      && j.JObject? && cls in types
      && (forall k :: k in j.members ==>
            k in FieldNames(types[cls]) && Accepts(types, FieldNamed(types[cls], k).ann, j.members[k]))
      && (forall k :: k in FieldNames(types[cls]) && k !in j.members ==> FieldNamed(types[cls], k).default.Some?)
  }

  lemma {:induction false} CoerceAccepts(types: Classes, ann: Ann, j: Json)
    ensures Coerce(types, ann, j).Some? <==> Accepts(types, ann, j)
    decreases j, 1, ann
  {
    if !j.JNull? {
      match ann {
        case Plain =>
        case Opt(item) => CoerceAccepts(types, item, j);
        case ListOf(item) => ItemsAccepted(types, item, j);
        case TupleOf(item) => ItemsAccepted(types, item, j);
        case DictOf(item) =>
          if j.JObject? {
            forall k | k in j.members { CoerceAccepts(types, item, j.members[k]); }
          }
        case Dataclass(cls) =>
          if j.JObject? && cls in types {
            FieldsAccepted(types, cls, j);
          }
      }
    }
  }

  lemma {:induction false} ItemsAccepted(types: Classes, item: Ann, j: Json)
    ensures j.JArray? ==>
              (CoerceItems(types, item, j).Some? <==> forall i :: 0 <= i < |j.items| ==> Accepts(types, item, j.items[i]))
    decreases j, 0
  {
    if j.JArray? {
      forall i | 0 <= i < |j.items| ensures Coerce(types, item, j.items[i]).Some? <==> Accepts(types, item, j.items[i]) {
        CoerceAccepts(types, item, j.items[i]);
      }
    }
  }

  lemma {:induction false} FieldsAccepted(types: Classes, cls: string, j: Json)
    requires j.JObject? && cls in types
    ensures Instantiate(types, cls, j).Some? <==> Accepts(types, Dataclass(cls), j)
    decreases j, 0
  {
    var fields := types[cls];
    forall k | k in FieldNames(fields)
      ensures FieldValue(types, fields, j, k).Some? <==>
              if k in j.members then Accepts(types, FieldNamed(fields, k).ann, j.members[k]) else FieldNamed(fields, k).default.Some?
    {
      if k in j.members {
        CoerceAccepts(types, FieldNamed(fields, k).ann, j.members[k]);
      }
    }
  }

  /** For example, a class with one defaulted field accepts the empty object, and one without does not. */
  lemma EmptyObject(types: Classes, cls: string, f: Field)
    requires cls in types && types[cls] == [f]
    ensures Coerce(types, Dataclass(cls), JObject(map[])) ==
            if f.default.Some? then Some(PObj(cls, map[f.name := f.default.value])) else None
  {
    var fields, j := types[cls], JObject(map[]);
    assert FieldNames(fields) == {f.name} && FieldNamed(fields, f.name) == f;
    assert FieldValue(types, fields, j, f.name) == f.default;
    if f.default.Some? {
      assert Instantiate(types, cls, j).value.fields == map[f.name := f.default.value];
    }
  }

  /** A value shaped as the annotation wants it: null anywhere, and a field may hold its default. */
  ghost predicate Shaped(types: Classes, ann: Ann, v: Py)
    decreases v, ann
  {
    v.PNone? ||
    match ann
    case Plain => Free(v, false)
    case Opt(item) => Shaped(types, item, v)
    case ListOf(item) => v.PList? && forall i :: 0 <= i < |v.items| ==> Shaped(types, item, v.items[i])
    case TupleOf(item) => v.PTuple? && forall i :: 0 <= i < |v.items| ==> Shaped(types, item, v.items[i])
    case DictOf(item) => v.PDict? && forall k :: k in v.members ==> Shaped(types, item, v.members[k])
    case Dataclass(cls) =>
      && v.PObj? && v.cls == cls && cls in types && v.fields.Keys == FieldNames(types[cls])
      && forall k :: k in v.fields ==>
           var f := FieldNamed(types[cls], k); Shaped(types, f.ann, v.fields[k]) || f.default == Some(v.fields[k])
  }

  /** What coercion makes of an accepted document has the annotated shape, all the way down. */
  lemma {:induction false} CoerceShapes(types: Classes, ann: Ann, j: Json)
    requires Coerce(types, ann, j).Some?
    ensures Shaped(types, ann, Coerce(types, ann, j).value)
    decreases j, 1, ann
  {
    if !j.JNull? {
      match ann {
        case Plain => VerbatimFree(j);
        case Opt(item) => CoerceShapes(types, item, j);
        case ListOf(item) => ItemsShaped(types, item, j);
        case TupleOf(item) => ItemsShaped(types, item, j);
        case DictOf(item) =>
          forall k | k in j.members ensures Shaped(types, item, Coerce(types, ann, j).value.members[k]) {
            assert Coerce(types, item, j.members[k]).Some?;
            CoerceShapes(types, item, j.members[k]);
          }
        case Dataclass(cls) => FieldsShaped(types, cls, j);
      }
    }
  }

  lemma {:induction false} FieldsShaped(types: Classes, cls: string, j: Json)
    requires j.JObject? && cls in types && Instantiate(types, cls, j).Some?
    ensures Shaped(types, Dataclass(cls), Instantiate(types, cls, j).value)
    decreases j, 0
  {
    var fields, v := types[cls], Instantiate(types, cls, j).value;
    forall k | k in v.fields
      ensures var f := FieldNamed(fields, k); Shaped(types, f.ann, v.fields[k]) || f.default == Some(v.fields[k])
    {
      assert FieldValue(types, fields, j, k).Some?;
      if k in j.members {
        CoerceShapes(types, FieldNamed(fields, k).ann, j.members[k]);
      }
    }
  }

  lemma {:induction false} ItemsShaped(types: Classes, item: Ann, j: Json)
    requires j.JArray? && CoerceItems(types, item, j).Some?
    ensures forall i :: 0 <= i < |j.items| ==> Shaped(types, item, CoerceItems(types, item, j).value[i])
    decreases j, 0
  {
    forall i | 0 <= i < |j.items| ensures Shaped(types, item, CoerceItems(types, item, j).value[i]) {
      CoerceShapes(types, item, j.items[i]);
    }
  }

  // ---- What coercion may change ------------------------------------------------------------------------

  /** The second document, read by the annotation, is the first with nothing changed but this: an object
      read as a dataclass has exactly the declared fields, and a field that the first document leaves out
      has its default. */
  ghost predicate Completes(types: Classes, ann: Ann, big: Json, small: Json)
    decreases small, ann
  {
    if small.JNull? then big.JNull?
    else match ann
      case Plain => big == small
      case Opt(item) => Completes(types, item, big, small)
      case ListOf(item) => CompletesItems(types, item, big, small)
      case TupleOf(item) => CompletesItems(types, item, big, small)
      case DictOf(item) =>
        && big.JObject? && small.JObject? && big.members.Keys == small.members.Keys
        && forall k :: k in small.members ==> Completes(types, item, big.members[k], small.members[k])
      case Dataclass(cls) =>
        && big.JObject? && small.JObject? && cls in types
        && small.members.Keys <= big.members.Keys == FieldNames(types[cls])
        && (forall k :: k in small.members ==>
              Completes(types, FieldNamed(types[cls], k).ann, big.members[k], small.members[k]))
        && (forall k :: k in big.members && k !in small.members ==>
              var f := FieldNamed(types[cls], k); f.default.Some? && big.members[k] == JsonOf(f.default.value))
  }

  ghost predicate CompletesItems(types: Classes, item: Ann, big: Json, small: Json)
    decreases small, item
  {
    && big.JArray? && small.JArray? && |big.items| == |small.items|
    && forall i :: 0 <= i < |small.items| ==> Completes(types, item, big.items[i], small.items[i])
  }

  lemma {:induction false} JsonOfVerbatim(j: Json)
    ensures JsonOf(Verbatim(j)) == j
  {
    match j {
      case JArray(items) =>
        forall i | 0 <= i < |items| { JsonOfVerbatim(items[i]); }
        assert JsonOf(Verbatim(j)).items == items;
      case JObject(members) =>
        forall k | k in members { JsonOfVerbatim(members[k]); }
        assert JsonOf(Verbatim(j)).members == members;
      case _ =>
    }
  }

  /** An accepted document is kept: the value's JSON form is the document with defaults for absent fields
      of dataclasses, and nothing else added, dropped or changed. */
  lemma {:induction false} CoerceKeepsData(types: Classes, ann: Ann, j: Json)
    requires Coerce(types, ann, j).Some?
    ensures Completes(types, ann, JsonOf(Coerce(types, ann, j).value), j)
    decreases j, 1, ann
  {
    if !j.JNull? {
      match ann {
        case Plain => JsonOfVerbatim(j);
        case Opt(item) => CoerceKeepsData(types, item, j);
        case ListOf(item) => ItemsKept(types, item, j);
        case TupleOf(item) => ItemsKept(types, item, j);
        case DictOf(item) =>
          forall k | k in j.members { CoerceKeepsData(types, item, j.members[k]); }
        case Dataclass(cls) => FieldsKept(types, cls, j);
      }
    }
  }

  lemma {:induction false} ItemsKept(types: Classes, item: Ann, j: Json)
    requires j.JArray? && CoerceItems(types, item, j).Some?
    ensures forall i :: 0 <= i < |j.items| ==> Completes(types, item, JsonOf(CoerceItems(types, item, j).value[i]), j.items[i])
    decreases j, 0
  {
    forall i | 0 <= i < |j.items|
      ensures Completes(types, item, JsonOf(CoerceItems(types, item, j).value[i]), j.items[i])
    {
      CoerceKeepsData(types, item, j.items[i]);
    }
  }

  lemma {:induction false} FieldsKept(types: Classes, cls: string, j: Json)
    requires j.JObject? && cls in types && Instantiate(types, cls, j).Some?
    ensures Completes(types, Dataclass(cls), JsonOf(Instantiate(types, cls, j).value), j)
    decreases j, 0
  {
    var fields, v := types[cls], Instantiate(types, cls, j).value;
    forall k | k in j.members
      ensures Completes(types, FieldNamed(fields, k).ann, JsonOf(v.fields[k]), j.members[k])
    {
      assert FieldValue(types, fields, j, k).Some?;
      CoerceKeepsData(types, FieldNamed(fields, k).ann, j.members[k]);
    }
    forall k | k in v.fields && k !in j.members
      ensures FieldNamed(fields, k).default == Some(v.fields[k])
    {
      assert FieldValue(types, fields, j, k).Some?;
    }
  }
}
