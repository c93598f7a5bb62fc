/** The bounded look-up cache: an ordered dictionary whose hits move to the back only while it is full, and
    which evicts from the front. */
module LookupCaches {
  import opened Options

  /** The position of a key in the dictionary's order. */
  function IndexOf<K(==)>(order: seq<K>, key: K): (i: nat)
    requires key in order
    ensures i < |order| && order[i] == key
  {
    if order[0] == key then 0 else 1 + IndexOf(order[1..], key)
  }

  /** `OrderedDict.move_to_end`. */
  function MoveToEnd<K>(order: seq<K>, i: nat): (moved: seq<K>)
    requires i < |order|
  {
    order[..i] + order[i + 1..] + [order[i]]
  }

  ghost predicate Distinct<K>(order: seq<K>) { forall i, j :: 0 <= i < j < |order| ==> order[i] != order[j] }

  ghost function Members<K>(order: seq<K>): set<K> { set k | k in order }

  lemma MoveMembers<K>(order: seq<K>, i: nat)
    requires Distinct(order) && i < |order|
    ensures Distinct(MoveToEnd(order, i)) && Members(MoveToEnd(order, i)) == Members(order)
  {
    var moved, n := MoveToEnd(order, i), |order| - 1;
    assert forall j :: 0 <= j < n ==> moved[j] == order[if j < i then j else j + 1];
    assert order == order[..i] + [order[i]] + order[i + 1..];
  }

  lemma AppendMembers<K>(order: seq<K>, key: K)
    requires Distinct(order) && key !in order
    ensures Distinct(order + [key]) && Members(order + [key]) == Members(order) + {key}
  {
  }

  lemma DropMembers<K>(order: seq<K>)
    requires Distinct(order) && order != []
    ensures Distinct(order[1..]) && Members(order[1..]) == Members(order) - {order[0]}
  {
    assert order == [order[0]] + order[1..];
    assert forall j :: 0 < j < |order| ==> order[j] != order[0];
  }

  class LookupCache<K(==, !new), R> {
    var cacheMax: int
    var order: seq<K>
    var store: map<K, R>

    ghost predicate Valid()
      reads this
    {
      Distinct(order) && store.Keys == Members(order)
    }

    constructor (cacheMax: int)
      ensures Valid() && store == map[] && order == [] && this.cacheMax == cacheMax
    {
      this.cacheMax, order, store := cacheMax, [], map[];
    }

    method Get(key: K) returns (result: Option<R>)
      requires Valid()
      modifies this`order
      ensures Valid()
      ensures result == if key in store then Some(store[key]) else None
      ensures order == if key in old(order) && |old(order)| >= cacheMax
                       then MoveToEnd(old(order), IndexOf(old(order), key)) else old(order)
    {
      if key in store {
        if |order| >= cacheMax {
          MoveMembers(order, IndexOf(order, key));
          order := MoveToEnd(order, IndexOf(order, key));
        }
        return Some(store[key]);
      }
      return None;
    }

    /** Store a result; when full, the front goes first. */
    method Set(key: K, result: R)
      requires Valid()
      modifies this`order, this`store
      ensures Valid()
      ensures cacheMax <= 0 ==> store == old(store) && order == old(order)
      ensures 0 < cacheMax ==>
                var full := |old(order)| >= cacheMax;
                var kept := if full then old(order)[1..] else old(order);
                && order == (if key in kept then kept else kept + [key])
                && store == (if full then old(store) - {old(order)[0]} else old(store))[key := result]
    {
      if cacheMax <= 0 {
        return;
      }
      if |order| >= cacheMax {
        Evict();
      }
      Put(key, result);
    }

    /** `store[key] = result`: a present key keeps its place, a new one goes to the back. */
    method Put(key: K, result: R)
      requires Valid()
      modifies this`order, this`store
      ensures Valid() && store == old(store)[key := result]
      ensures order == if key in old(order) then old(order) else old(order) + [key]
    {
      if key !in order {
        AppendMembers(order, key);
        order := order + [key];
      }
      store := store[key := result];
    }

    /** `popitem(last=False)`. */
    method Evict()
      requires Valid() && order != []
      modifies this`order, this`store
      ensures Valid() && order == old(order)[1..] && store == old(store) - {old(order)[0]}
    {
      DropMembers(order);
      store := store - {order[0]};
      order := order[1..];
    }

    method Clear()
      modifies this`order, this`store
      ensures Valid() && store == map[] && order == []
    {
      order, store := [], map[];
    }

    /** Retuning the bound does not evict; it only changes what later calls do. */
    method SetMax(value: int)
      modifies this`cacheMax
      ensures cacheMax == value
    {
      cacheMax := value;
    }
  }

  // ---- What a history of calls says -----------------------------------------------------------------

  datatype Op<K, R> = DoGet(key: K) | DoSet(key: K, result: R) | DoClear | DoTune(value: int)

  /** What is stored, when each stored key was last inserted or hit while full (as a position in the
      history), the bound, and the largest bound since the last clear. There is no order here. */
  datatype Ref<!K, R> = Ref(store: map<K, R>, touched: map<K, nat>, bound: int, largest: int)

  ghost predicate Full<K, R>(s: Ref<K, R>) { |s.store| >= s.bound }

  /** The stored key that was touched longest ago. */
  ghost predicate IsOldest<K(!new), R>(s: Ref<K, R>, key: K) {
    key in s.store && key in s.touched &&
    forall k :: k in s.store && k != key ==> k in s.touched && s.touched[key] < s.touched[k]
  }

  /** What is left once a full cache has made room. */
  ghost function Room<K(!new), R>(s: Ref<K, R>): (store: map<K, R>) {
    if Full(s) && exists key :: IsOldest(s, key) then
      var key :| IsOldest(s, key);
      s.store - {key}
    else s.store
  }

  /** The call at position `at` of the history. */
  ghost function RefStep<K(!new), R>(s: Ref<K, R>, op: Op<K, R>, at: nat): (t: Ref<K, R>) {
    match op
    case DoGet(key) => if key in s.store && Full(s) then s.(touched := s.touched[key := at]) else s
    case DoSet(key, result) =>
      if s.bound <= 0 then s
      else s.(store := Room(s)[key := result],
              touched := if key in Room(s) then s.touched else s.touched[key := at])
    case DoClear => Ref(map[], map[], s.bound, s.bound)
    case DoTune(value) => s.(bound := value, largest := if s.largest < value then value else s.largest)
  }

  ghost function Reply<K, R>(s: Ref<K, R>, op: Op<K, R>): (answer: Option<R>) {
    if op.DoGet? && op.key in s.store then Some(s.store[op.key]) else None
  }

  /** The state that the first `n` calls leave. */
  ghost function RefAfter<K(!new), R>(ops: seq<Op<K, R>>, n: nat, bound: int): (s: Ref<K, R>)
    requires n <= |ops|
  {
    if n == 0 then Ref(map[], map[], bound, bound) else RefStep(RefAfter(ops, n - 1, bound), ops[n - 1], n - 1)
  }

  /** The answers of the first `n` calls. */
  ghost function Replies<K(!new), R>(ops: seq<Op<K, R>>, n: nat, bound: int): (answers: seq<Option<R>>)
    requires n <= |ops|
  {
    if n == 0 then [] else Replies(ops, n - 1, bound) + [Reply(RefAfter(ops, n - 1, bound), ops[n - 1])]
  }

  /** Each key of the order is stamped below the clock, and stamps grow along the order. */
  ghost predicate Stamped<K>(order: seq<K>, stamp: map<K, nat>, clock: nat) {
    && (forall i :: 0 <= i < |order| ==> order[i] in stamp && stamp[order[i]] < clock)
    && (forall i, j :: 0 <= i < j < |order| ==> stamp[order[i]] < stamp[order[j]])
  }

  /** The dictionary's order is the order of the touches, and its size is within the largest bound. */
  ghost predicate Agrees<K, R>(order: seq<K>, s: Ref<K, R>, clock: nat) {
    && Distinct(order) && s.store.Keys == Members(order) && Stamped(order, s.touched, clock)
    && s.bound <= s.largest && |order| <= (if s.largest > 0 then s.largest else 0)
  }

  lemma MembersSize<K>(order: seq<K>)
    requires Distinct(order)
    ensures |Members(order)| == |order|
  {
    if order != [] {
      DropMembers(order);
      MembersSize(order[1..]);
      assert Members(order) == Members(order[1..]) + {order[0]};
    }
  }

  /** The front, and nothing else, was touched longest ago. */
  lemma FrontIsOldest<K(!new), R>(order: seq<K>, s: Ref<K, R>, clock: nat, key: K)
    requires Agrees(order, s, clock) && order != []
    ensures IsOldest(s, key) <==> key == order[0]
  {
    assert order[0] in Members(order);
    forall k | k in s.store && k != order[0] ensures k in s.touched && s.touched[order[0]] < s.touched[k] {
      var i :| 0 <= i < |order| && order[i] == k;
    }
  }

  lemma RoomMade<K(!new), R>(order: seq<K>, s: Ref<K, R>, clock: nat)
    requires Agrees(order, s, clock) && s.bound > 0
    ensures Full(s) <==> |order| >= s.bound
    ensures Room(s) == if |order| >= s.bound then s.store - {order[0]} else s.store
  {
    MembersSize(order);
    if |order| >= s.bound {
      FrontIsOldest(order, s, clock, order[0]);
      forall key | IsOldest(s, key) ensures key == order[0] {
        FrontIsOldest(order, s, clock, key);
      }
    }
  }

  /** A key goes to the back with the newest stamp. */
  lemma Restamped<K>(order: seq<K>, stamp: map<K, nat>, clock: nat, key: K)
    requires Stamped(order, stamp, clock) && key !in order
    ensures Stamped(order + [key], stamp[key := clock], clock + 1)
  {
    assert forall i :: 0 <= i < |order| ==> order[i] != key;
  }

  lemma MoveStamped<K>(order: seq<K>, i: nat, stamp: map<K, nat>, clock: nat)
    requires Distinct(order) && Stamped(order, stamp, clock) && i < |order|
    ensures Stamped(MoveToEnd(order, i), stamp[order[i] := clock], clock + 1)
  {
    var rest := order[..i] + order[i + 1..];
    assert forall j :: 0 <= j < |rest| ==> rest[j] == order[if j < i then j else j + 1];
    Restamped(rest, stamp, clock, order[i]);
  }

  lemma IdleAgrees<K(!new), R>(order: seq<K>, s: Ref<K, R>, clock: nat)
    requires Agrees(order, s, clock)
    ensures Agrees(order, s, clock + 1)
  {
  }

  lemma HitAgrees<K(!new), R>(order: seq<K>, s: Ref<K, R>, clock: nat, i: nat)
    requires Agrees(order, s, clock) && i < |order|
    ensures Agrees(MoveToEnd(order, i), s.(touched := s.touched[order[i] := clock]), clock + 1)
  {
    MoveMembers(order, i);
    MoveStamped(order, i, s.touched, clock);
  }

  lemma HasKey<K(!new), R>(order: seq<K>, s: Ref<K, R>, clock: nat, key: K)
    requires Agrees(order, s, clock)
    ensures (key in s.store <==> key in order) && (Full(s) <==> |order| >= s.bound)
  {
    MembersSize(order);
    assert key in Members(order) <==> key in order;
  }

  lemma GetAgrees<K(!new), R>(order: seq<K>, s: Ref<K, R>, clock: nat, key: K)
    requires Agrees(order, s, clock)
    ensures var moved := if key in order && |order| >= s.bound then MoveToEnd(order, IndexOf(order, key)) else order;
            Agrees(moved, RefStep(s, DoGet(key), clock), clock + 1)
  {
    HasKey(order, s, clock, key);
    if key in order && |order| >= s.bound {
      HitAgrees(order, s, clock, IndexOf(order, key));
    } else {
      IdleAgrees(order, s, clock);
    }
  }

  /** What is left after making room. */
  lemma RoomAgrees<K(!new), R>(order: seq<K>, s: Ref<K, R>, clock: nat)
    requires Agrees(order, s, clock) && s.bound > 0
    ensures var kept := if |order| >= s.bound then order[1..] else order;
            Agrees(kept, s.(store := Room(s)), clock) && |kept| < s.largest
  {
    RoomMade(order, s, clock);
    if |order| >= s.bound {
      DropMembers(order);
    }
  }

  lemma RenewAgrees<K(!new), R>(order: seq<K>, s: Ref<K, R>, clock: nat, key: K, result: R)
    requires Agrees(order, s, clock) && key in order
    ensures Agrees(order, s.(store := s.store[key := result]), clock + 1)
  {
    assert key in Members(order);
    assert s.store[key := result].Keys == s.store.Keys;
  }

  lemma InsertAgrees<K(!new), R>(order: seq<K>, s: Ref<K, R>, clock: nat, key: K, result: R)
    requires Agrees(order, s, clock) && key !in order && |order| < s.largest
    ensures Agrees(order + [key], s.(store := s.store[key := result], touched := s.touched[key := clock]), clock + 1)
  {
    AppendMembers(order, key);
    Restamped(order, s.touched, clock, key);
    assert s.store[key := result].Keys == s.store.Keys + {key};
  }

  lemma SetAgrees<K(!new), R>(order: seq<K>, s: Ref<K, R>, clock: nat, key: K, result: R)
    requires Agrees(order, s, clock) && s.bound > 0
    ensures var kept := if |order| >= s.bound then order[1..] else order;
            Agrees(if key in kept then kept else kept + [key], RefStep(s, DoSet(key, result), clock), clock + 1)
  {
    var kept := if |order| >= s.bound then order[1..] else order;
    RoomAgrees(order, s, clock);
    var roomy := s.(store := Room(s));
    HasKey(kept, roomy, clock, key);
    if key in kept {
      RenewAgrees(kept, roomy, clock, key, result);
    } else {
      InsertAgrees(kept, roomy, clock, key, result);
    }
  }

  /** One call. */
  method Perform<K(==, !new), R>(cache: LookupCache<K, R>, op: Op<K, R>, ghost s: Ref<K, R>, ghost clock: nat)
    returns (answer: Option<R>)
    requires cache.Valid() && cache.store == s.store && cache.cacheMax == s.bound && Agrees(cache.order, s, clock)
    modifies cache
    ensures var t := RefStep(s, op, clock);
            cache.Valid() && cache.store == t.store && cache.cacheMax == t.bound && Agrees(cache.order, t, clock + 1)
    ensures answer == Reply(s, op)
  {
    answer := None;
    match op {
      case DoGet(key) =>
        GetAgrees(cache.order, s, clock, key);
        HasKey(cache.order, s, clock, key);
        answer := cache.Get(key);
      case DoSet(key, result) =>
        if s.bound > 0 {
          SetAgrees(cache.order, s, clock, key, result);
          RoomMade(cache.order, s, clock);
        }
        cache.Set(key, result);
      case DoClear =>
        cache.Clear();
      case DoTune(value) =>
        cache.SetMax(value);
    }
  }

  /** Over every history of calls the cache holds and answers what the history says: a full cache gives up
      the entry whose latest insertion or hit-while-full is oldest, and there are never more entries than
      the largest bound since the last clear. */
  method Run<K(==, !new), R>(bound: int, ops: seq<Op<K, R>>) returns (cache: LookupCache<K, R>, answers: seq<Option<R>>)
    ensures fresh(cache) && cache.Valid()
    ensures var s := RefAfter(ops, |ops|, bound);
            cache.store == s.store && |cache.store| <= (if s.largest > 0 then s.largest else 0)
    ensures answers == Replies(ops, |ops|, bound)
  {
    cache := new LookupCache(bound);
    answers := [];
    for i := 0 to |ops|
      invariant fresh(cache) && cache.Valid()
      invariant var s := RefAfter(ops, i, bound);
                cache.store == s.store && cache.cacheMax == s.bound && Agrees(cache.order, s, i)
      invariant answers == Replies(ops, i, bound)
    {
      var answer := Perform(cache, ops[i], RefAfter(ops, i, bound), i);
      answers := answers + [answer];
    }
    MembersSize(cache.order);
  }
}
