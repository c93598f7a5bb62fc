/** The ordered header multimap with its index by name, and the index-free view of native responses.
    Names and values are byte strings. */
module Headers {

  type Byte = b: int | 0 <= b < 256
  type Bytes = seq<Byte>
  type Pair = (Bytes, Bytes)

  function LowerByte(b: Byte): (c: Byte) { if 65 <= b <= 90 then b + 32 else b }

  /** `bytes.lower()`. */
  function Lower(name: Bytes): (low: Bytes)
    ensures |low| == |name| && forall i :: 0 <= i < |name| ==> low[i] == LowerByte(name[i])
  {
    seq(|name|, i requires 0 <= i < |name| => LowerByte(name[i]))
  }

  lemma LowerTwice(name: Bytes)
    ensures Lower(Lower(name)) == Lower(name)
  {
  }

  /** The fields of a name, case-insensitively and in order (section 5.1 of RFC 9110). */
  function FieldsOf(pairs: seq<Pair>, low: Bytes): (found: seq<Pair>) {
    if pairs == [] then []
    else
      var n := |pairs| - 1;
      FieldsOf(pairs[..n], low) + (if Lower(pairs[n].0) == low then [pairs[n]] else [])
  }

  /** The same up to the case of the letters A to Z. */
  ghost predicate SameIgnoringCase(a: Bytes, b: Bytes) {
    |a| == |b| && forall i :: 0 <= i < |a| ==>
      || a[i] == b[i] || (65 <= a[i] <= 90 && b[i] == a[i] + 32) || (65 <= b[i] <= 90 && a[i] == b[i] + 32)
  }

  lemma LowerSame(a: Bytes, b: Bytes)
    ensures Lower(a) == Lower(b) <==> SameIgnoringCase(a, b)
  {
    if Lower(a) == Lower(b) {
      forall i | 0 <= i < |a| ensures LowerByte(a[i]) == LowerByte(b[i]) {
        assert Lower(a)[i] == Lower(b)[i];
      }
    }
  }

  /** They are the pairs at exactly the positions whose name is the same up to case, in order. */
  lemma {:induction false} FieldsAre(pairs: seq<Pair>, name: Bytes) returns (at: seq<nat>)
    ensures |at| == |FieldsOf(pairs, Lower(name))|
    ensures forall k :: 0 <= k < |at| ==> at[k] < |pairs| && FieldsOf(pairs, Lower(name))[k] == pairs[at[k]]
    ensures forall k, l :: 0 <= k < l < |at| ==> at[k] < at[l]
    ensures forall i :: 0 <= i < |pairs| ==> (i in at <==> SameIgnoringCase(pairs[i].0, name))
  {
    at := [];
    if pairs != [] {
      var n := |pairs| - 1;
      at := FieldsAre(pairs[..n], name);
      LowerSame(pairs[n].0, name);
      assert forall k :: 0 <= k < |at| ==> at[k] < n;
      if Lower(pairs[n].0) == Lower(name) {
        at := at + [n];
      }
    }
  }

  lemma {:induction false} FieldsExist(pairs: seq<Pair>, name: Bytes)
    ensures FieldsOf(pairs, Lower(name)) != [] <==> exists i :: 0 <= i < |pairs| && SameIgnoringCase(pairs[i].0, name)
  {
    if pairs != [] {
      var n := |pairs| - 1;
      FieldsExist(pairs[..n], name);
      LowerSame(pairs[n].0, name);
      assert forall i :: 0 <= i < n ==> pairs[i] == pairs[..n][i];
    }
  }

  // ---- The index ------------------------------------------------------------------------------------

  type Index = map<Bytes, seq<Pair>>

  /** `index.setdefault(key, []).append(pair)`. */
  function Add(index: Index, key: Bytes, pair: Pair): (now: Index) {
    index[key := (if key in index then index[key] else []) + [pair]]
  }

  /** The pairs that were indexed under a key, in order. */
  ghost function Group(pairs: seq<Pair>, keys: seq<Bytes>, key: Bytes): (found: seq<Pair>)
    requires |keys| == |pairs|
  {
    if pairs == [] then []
    else
      var n := |pairs| - 1;
      Group(pairs[..n], keys[..n], key) + (if keys[n] == key then [pairs[n]] else [])
  }

  /** The index after adding pair by pair. */
  ghost function Indexed(pairs: seq<Pair>, keys: seq<Bytes>): (index: Index)
    requires |keys| == |pairs|
  {
    if pairs == [] then map[]
    else
      var n := |pairs| - 1;
      Add(Indexed(pairs[..n], keys[..n]), keys[n], pairs[n])
  }

  lemma IndexedSnoc(pairs: seq<Pair>, keys: seq<Bytes>, pair: Pair, key: Bytes)
    requires |keys| == |pairs|
    ensures Indexed(pairs + [pair], keys + [key]) == Add(Indexed(pairs, keys), key, pair)
  {
    assert (pairs + [pair])[..|pairs|] == pairs && (keys + [key])[..|keys|] == keys;
  }

  lemma IndexedTake(pairs: seq<Pair>, keys: seq<Bytes>, i: nat)
    requires i < |keys| == |pairs|
    ensures Indexed(pairs[..i + 1], keys[..i + 1]) == Add(Indexed(pairs[..i], keys[..i]), keys[i], pairs[i])
  {
    assert pairs[..i + 1][..i] == pairs[..i] && keys[..i + 1][..i] == keys[..i];
  }

  /** The index holds exactly the non-empty groups. */
  ghost predicate IndexOk(pairs: seq<Pair>, keys: seq<Bytes>, index: Index)
    requires |keys| == |pairs|
  {
    forall key :: (key in index <==> Group(pairs, keys, key) != []) && (key in index ==> index[key] == Group(pairs, keys, key))
  }

  lemma {:induction false} IndexedOk(pairs: seq<Pair>, keys: seq<Bytes>)
    requires |keys| == |pairs|
    ensures IndexOk(pairs, keys, Indexed(pairs, keys))
  {
    if pairs != [] {
      IndexedOk(pairs[..|pairs| - 1], keys[..|pairs| - 1]);
    }
  }

  ghost function RawKeys(pairs: seq<Pair>): (keys: seq<Bytes>) {
    seq(|pairs|, i requires 0 <= i < |pairs| => pairs[i].0)
  }

  ghost function LowKeys(pairs: seq<Pair>): (keys: seq<Bytes>) {
    seq(|pairs|, i requires 0 <= i < |pairs| => Lower(pairs[i].0))
  }

  /** Each pair stands under its name as it is, or in lower case. */
  ghost predicate KeysOk(pairs: seq<Pair>, keys: seq<Bytes>) {
    |keys| == |pairs| && forall i :: 0 <= i < |pairs| ==> keys[i] == pairs[i].0 || keys[i] == Lower(pairs[i].0)
  }

  /** What a look-up answers: the bytes as given are tried first, then in lower case. */
  ghost function Answer(pairs: seq<Pair>, keys: seq<Bytes>, name: Bytes): (found: seq<Pair>)
    requires |keys| == |pairs|
  {
    if Group(pairs, keys, name) != [] then Group(pairs, keys, name) else Group(pairs, keys, Lower(name))
  }

  // ---- When look-ups are right ----------------------------------------------------------------------

  lemma {:induction false} LowGroups(pairs: seq<Pair>, key: Bytes)
    ensures Group(pairs, LowKeys(pairs), key) == FieldsOf(pairs, key)
    ensures FieldsOf(pairs, key) != [] ==> Lower(key) == key
  {
    if pairs != [] {
      var n := |pairs| - 1;
      LowGroups(pairs[..n], key);
      assert LowKeys(pairs)[..n] == LowKeys(pairs[..n]);
      LowerTwice(pairs[n].0);
    }
  }

  /** A group under a lower-case key has no more pairs than the field, and fewer if it misses one. */
  lemma {:induction false} GroupMisses(pairs: seq<Pair>, keys: seq<Bytes>, low: Bytes)
    requires KeysOk(pairs, keys) && Lower(low) == low
    ensures |Group(pairs, keys, low)| <= |FieldsOf(pairs, low)|
    ensures (exists i :: 0 <= i < |pairs| && Lower(pairs[i].0) == low && keys[i] != low) ==>
              |Group(pairs, keys, low)| < |FieldsOf(pairs, low)|
  {
    if pairs != [] {
      GroupMisses(pairs[..|pairs| - 1], keys[..|pairs| - 1], low);
    }
  }

  /** Every look-up is answered case-insensitively if and only if every pair stands under its name in lower
      case. */
  lemma AnswersRight(pairs: seq<Pair>, keys: seq<Bytes>)
    requires KeysOk(pairs, keys)
    ensures (forall name :: Answer(pairs, keys, name) == FieldsOf(pairs, Lower(name))) <==> keys == LowKeys(pairs)
  {
    if keys == LowKeys(pairs) {
      forall name ensures Answer(pairs, keys, name) == FieldsOf(pairs, Lower(name)) {
        LowGroups(pairs, name);
        LowGroups(pairs, Lower(name));
      }
    } else {
      var i :| 0 <= i < |pairs| && keys[i] != LowKeys(pairs)[i];
      var low := Lower(pairs[i].0);
      LowerTwice(pairs[i].0);
      GroupMisses(pairs, keys, low);
      assert Answer(pairs, keys, low) != FieldsOf(pairs, Lower(low));
    }
  }

  lemma {:induction false} GroupHas(pairs: seq<Pair>, keys: seq<Bytes>, key: Bytes, pair: Pair)
    requires |keys| == |pairs|
    ensures pair in Group(pairs, keys, key) <==> exists i :: 0 <= i < |pairs| && pairs[i] == pair && keys[i] == key
  {
    if pairs != [] {
      var n := |pairs| - 1;
      GroupHas(pairs[..n], keys[..n], key, pair);
      if i :| 0 <= i < |pairs| && pairs[i] == pair && keys[i] == key {
        assert i < n ==> pairs[..n][i] == pair && keys[..n][i] == key;
      }
    }
  }

  /** A name that `from_lowered` got with an upper-case letter is found under exactly that spelling. */
  lemma OwnSpellingOnly(pairs: seq<Pair>, i: nat, name: Bytes)
    requires i < |pairs| && Lower(pairs[i].0) != pairs[i].0
    ensures pairs[i] in Answer(pairs, RawKeys(pairs), name) <==> name == pairs[i].0
  {
    GroupHas(pairs, RawKeys(pairs), name, pairs[i]);
    GroupHas(pairs, RawKeys(pairs), Lower(name), pairs[i]);
    LowerTwice(name);
    if name == pairs[i].0 {
      assert RawKeys(pairs)[i] == name;
    }
  }

  /** For example `X` stored so is not found as `x`. */
  lemma UpperCaseMissed(value: Bytes)
    ensures var pairs := [([88], value)];
            Answer(pairs, RawKeys(pairs), [120]) == [] && FieldsOf(pairs, [120]) == pairs
  {
    var pairs: seq<Pair>, upper: Bytes, low: Bytes := [([88], value)], [88], [120];
    var keys := RawKeys(pairs);
    assert Lower(upper) == low && Lower(low) == low && upper[0] != low[0];
    assert pairs[..0] == [] && keys[..0] == [] && keys[0] == upper;
    assert Group(pairs, keys, low) == Group(pairs[..0], keys[..0], low) + [];
  }

  lemma TakeOneMore<T>(a: seq<T>, b: seq<T>, i: nat)
    requires i < |b|
    ensures a + b[..i] + [b[i]] == a + b[..i + 1]
  {
  }

  // ---- The multimap ---------------------------------------------------------------------------------

  class Headers {
    var list: seq<Pair>
    var index: Index
    ghost var keys: seq<Bytes>       // the key under which each pair stands in the index

    ghost predicate Valid()
      reads this
    {
      KeysOk(list, keys) && index == Indexed(list, keys)
    }

    constructor (pairs: seq<Pair>)
      ensures Valid() && list == pairs && keys == LowKeys(pairs)
    {
      list, index, keys := pairs, map[], [];
      new;
      index, keys := BuildIndex(pairs, true);
    }

    /** `from_lowered`: the names are indexed as they are, so it needs them in lower case. */
    constructor FromLowered(pairs: seq<Pair>)
      ensures Valid() && list == pairs && keys == RawKeys(pairs)
      ensures keys == LowKeys(pairs) <==> forall i :: 0 <= i < |pairs| ==> Lower(pairs[i].0) == pairs[i].0
    {
      list, index, keys := pairs, map[], [];
      new;
      index, keys := BuildIndex(pairs, false);
      if forall i :: 0 <= i < |pairs| ==> Lower(pairs[i].0) == pairs[i].0 {
        assert keys == LowKeys(pairs);
      } else {
        var i :| 0 <= i < |pairs| && Lower(pairs[i].0) != pairs[i].0;
        assert keys[i] != LowKeys(pairs)[i];
      }
    }

    method GetList(name: Bytes) returns (pairs: seq<Pair>)
      requires Valid()
      ensures pairs == Answer(list, keys, name)
      ensures keys == LowKeys(list) ==> pairs == FieldsOf(list, Lower(name))
    {
      AnswersRight(list, keys);
      IndexedOk(list, keys);
      if name in index {
        return index[name];
      }
      pairs := if Lower(name) in index then index[Lower(name)] else [];
    }

    method Get(name: Bytes, default: Bytes) returns (value: Bytes)
      requires Valid()
      ensures var found := Answer(list, keys, name); value == if found != [] then found[0].1 else default
      ensures keys == LowKeys(list) ==>
                var fields := FieldsOf(list, Lower(name)); value == if fields != [] then fields[0].1 else default
    {
      var pairs := GetList(name);
      value := if pairs != [] then pairs[0].1 else default;
    }

    method Contains(name: Bytes) returns (found: bool)
      requires Valid()
      ensures found <==> Answer(list, keys, name) != []
      ensures keys == LowKeys(list) ==> (found <==> FieldsOf(list, Lower(name)) != [])
    {
      AnswersRight(list, keys);
      IndexedOk(list, keys);
      found := name in index || Lower(name) in index;
    }

    /** `append(name, value)`. */
    method AppendOne(pair: Pair)
      requires Valid()
      modifies this
      ensures Valid() && list == old(list) + [pair] && keys == old(keys) + [Lower(pair.0)]
    {
      IndexedSnoc(list, keys, pair, Lower(pair.0));
      list, index, keys := list + [pair], Add(index, Lower(pair.0), pair), keys + [Lower(pair.0)];
    }

    /** `append(pairs)`. */
    method Append(pairs: seq<Pair>)
      requires Valid()
      modifies this
      ensures Valid() && list == old(list) + pairs && keys == old(keys) + LowKeys(pairs)
      ensures old(keys == LowKeys(list)) ==> keys == LowKeys(list)
    {
      ghost var low := LowKeys(pairs);
      for i := 0 to |pairs|
        invariant Valid() && list == old(list) + pairs[..i] && keys == old(keys) + low[..i]
      {
        TakeOneMore(old(list), pairs, i);
        TakeOneMore(old(keys), low, i);
        AppendOne(pairs[i]);
      }
      assert pairs[..|pairs|] == pairs && low[..|pairs|] == low;
    }

    method Plus(other: Headers) returns (sum: Headers)
      ensures fresh(sum) && sum.Valid() && sum.list == list + other.list && sum.keys == LowKeys(sum.list)
    {
      sum := new Headers(list + other.list);
    }
  }

  /** The loop of the constructors. */
  method BuildIndex(pairs: seq<Pair>, lower: bool) returns (index: Index, ghost keys: seq<Bytes>)
    ensures keys == if lower then LowKeys(pairs) else RawKeys(pairs)
    ensures index == Indexed(pairs, keys)
  {
    index, keys := map[], if lower then LowKeys(pairs) else RawKeys(pairs);
    for i := 0 to |pairs|
      invariant index == Indexed(pairs[..i], keys[..i])
    {
      IndexedTake(pairs, keys, i);
      index := Add(index, if lower then Lower(pairs[i].0) else pairs[i].0, pairs[i]);
    }
    assert pairs[..|pairs|] == pairs && keys[..|pairs|] == keys;
  }

  /** `_HeaderView.getlist`: scan the pairs, comparing the bytes and then the lower-cased bytes. */
  method ViewGetList(items: seq<Pair>, name: Bytes) returns (found: seq<Pair>)
    ensures found == FieldsOf(items, Lower(name))
  {
    var lowered := Lower(name);
    found := [];
    for i := 0 to |items|
      invariant found == FieldsOf(items[..i], lowered)
    {
      assert items[..i + 1][..i] == items[..i];
      if items[i].0 == name || Lower(items[i].0) == lowered {
        found := found + [items[i]];
      }
    }
    assert items[..|items|] == items;
  }

  /** `_HeaderView.get`: the first match ends the scan. */
  method ViewGet(items: seq<Pair>, name: Bytes, default: Bytes) returns (value: Bytes)
    ensures var fields := FieldsOf(items, Lower(name)); value == if fields != [] then fields[0].1 else default
  {
    var lowered := Lower(name);
    for i := 0 to |items|
      invariant FieldsOf(items[..i], lowered) == []
    {
      assert items[..i + 1][..i] == items[..i];
      if items[i].0 == name || Lower(items[i].0) == lowered {
        FieldsPrefix(items, i + 1, lowered);
        return items[i].1;
      }
    }
    assert items[..|items|] == items;
    value := default;
  }

  lemma {:induction false} FieldsPrefix(pairs: seq<Pair>, i: nat, low: Bytes)
    requires i <= |pairs|
    ensures FieldsOf(pairs[..i], low) <= FieldsOf(pairs, low)
  {
    if i < |pairs| {
      FieldsPrefix(pairs[..|pairs| - 1], i, low);
      assert pairs[..|pairs| - 1][..i] == pairs[..i];
    } else {
      assert pairs[..i] == pairs;
    }
  }
}
