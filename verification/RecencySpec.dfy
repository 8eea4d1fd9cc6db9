/**
 The cache as a recency sequence, most recently used first, and what holds over whole
 histories of gets and puts.
 */
module RecencySpec {
  import opened Basics

  datatype Item<V> = Item(key: string, value: V, expiresAt: int)

  /** Position of a key, or the length when absent. */
  function Find<V>(items: seq<Item<V>>, key: string): (i: nat)
    ensures i <= |items|
    ensures i < |items| ==> items[i].key == key
    ensures forall j :: 0 <= j < i ==> items[j].key != key
  {
    if items == [] || items[0].key == key then 0 else 1 + Find(items[1..], key)
  }

  function Without<T>(s: seq<T>, i: nat): seq<T>
    requires i < |s|
  {
    s[..i] + s[i + 1..]
  }

  /** A get at `now`: a hit moves to the front, an expired item goes, a miss changes nothing. */
  function AfterGet<V>(items: seq<Item<V>>, key: string, now: int): (seq<Item<V>>, Option<V>) {
    var i := Find(items, key);
    if i == |items| then (items, None)
    else if now > items[i].expiresAt then (Without(items, i), None)
    else ([items[i]] + Without(items, i), Some(items[i].value))
  }

  /** A put at `now`: the key moves or comes to the front, and a full cache drops its last item. */
  function AfterPut<V>(items: seq<Item<V>>, capacity: int, ttl: int, key: string, value: V, now: int): seq<Item<V>> {
    var i := Find(items, key);
    var item := Item(key, value, now + ttl);
    if i < |items| then [item] + Without(items, i)
    else [item] + if |items| >= capacity && items != [] then items[..|items| - 1] else items
  }

  ghost predicate DistinctKeys<V>(items: seq<Item<V>>) {
    forall i, j :: 0 <= i < j < |items| ==> items[i].key != items[j].key
  }

  // ---------------------------------------------------------------- histories

  datatype Op<V> = Get(key: string, now: int) | Put(key: string, value: V, now: int)

  function After<V>(items: seq<Item<V>>, capacity: int, ttl: int, op: Op<V>): seq<Item<V>> {
    match op
    case Get(key, now) => AfterGet(items, key, now).0
    case Put(key, value, now) => AfterPut(items, capacity, ttl, key, value, now)
  }

  /** The cache after a history that began empty. */
  function Run<V>(capacity: int, ttl: int, ops: seq<Op<V>>): seq<Item<V>> {
    if ops == [] then []
    else After(Run(capacity, ttl, ops[..|ops| - 1]), capacity, ttl, ops[|ops| - 1])
  }

  /** The last put of `key` in a history. */
  function LastPut<V>(ops: seq<Op<V>>, key: string): Option<Op<V>> {
    if ops == [] then None
    else
      var last := ops[|ops| - 1];
      if last.Put? && last.key == key then Some(last) else LastPut(ops[..|ops| - 1], key)
  }

  /** Taking one item out leaves the others, under other keys. */
  lemma WithoutIsSound<V>(items: seq<Item<V>>, i: nat)
    requires DistinctKeys(items) && i < |items|
    ensures DistinctKeys(Without(items, i)) && |Without(items, i)| == |items| - 1
    ensures forall item :: item in Without(items, i) ==> item in items && item.key != items[i].key
  {
    var rest := Without(items, i);
    forall item | item in rest ensures item in items && item.key != items[i].key {
      var j :| 0 <= j < |rest| && rest[j] == item;
      assert item == items[if j < i then j else j + 1];
    }
  }

  lemma ConsIsSound<V>(item: Item<V>, items: seq<Item<V>>)
    requires DistinctKeys(items) && forall other :: other in items ==> other.key != item.key
    ensures DistinctKeys([item] + items)
    ensures forall other :: other in [item] + items <==> other == item || other in items
  {
    forall j | 0 <= j < |items| ensures items[j].key != item.key {
      assert items[j] in items;
    }
  }

  lemma AbsentKey<V>(items: seq<Item<V>>, key: string)
    requires Find(items, key) == |items|
    ensures forall item :: item in items ==> item.key != key
  {
  }

  lemma GetIsSound<V>(items: seq<Item<V>>, key: string, now: int)
    requires DistinctKeys(items)
    ensures var items' := AfterGet(items, key, now).0;
            DistinctKeys(items') && |items'| <= |items| && forall item :: item in items' ==> item in items
  {
    var i := Find(items, key);
    if i < |items| {
      WithoutIsSound(items, i);
      ConsIsSound(items[i], Without(items, i));
    }
  }

  lemma PutIsSound<V>(items: seq<Item<V>>, capacity: int, ttl: int, key: string, value: V, now: int)
    requires DistinctKeys(items)
    ensures var items' := AfterPut(items, capacity, ttl, key, value, now);
            && DistinctKeys(items')
            && |items'| <= |items| + 1
            && (|items| <= capacity && 1 <= capacity ==> |items'| <= capacity)
            && forall item :: item in items' ==>
                 (item in items && item.key != key) || item == Item(key, value, now + ttl)
  {
    var i := Find(items, key);
    var item := Item(key, value, now + ttl);
    if i < |items| {
      WithoutIsSound(items, i);
      ConsIsSound(item, Without(items, i));
    } else {
      AbsentKey(items, key);
      if |items| >= capacity && items != [] {
        assert items[..|items| - 1] == Without(items, |items| - 1);
        WithoutIsSound(items, |items| - 1);
        ConsIsSound(item, items[..|items| - 1]);
      } else {
        ConsIsSound(item, items);
      }
    }
  }

  lemma StepIsSound<V>(items: seq<Item<V>>, capacity: int, ttl: int, op: Op<V>)
    requires DistinctKeys(items)
    ensures var items' := After(items, capacity, ttl, op);
            && DistinctKeys(items')
            && |items'| <= |items| + 1
            && (|items| <= capacity && 1 <= capacity ==> |items'| <= capacity)
            && forall item :: item in items' ==>
                 (item in items && (op.Put? ==> item.key != op.key))
                 || (op.Put? && item == Item(op.key, op.value, op.now + ttl))
  {
    match op
    case Get(key, now) => GetIsSound(items, key, now);
    case Put(key, value, now) => PutIsSound(items, capacity, ttl, key, value, now);
  }

  /** Over every history: keys are distinct, the capacity is respected, and every item is the last put
      of its key, with the expiry that put gave it. */
  lemma {:induction false} CacheHoldsLastPuts<V>(capacity: int, ttl: int, ops: seq<Op<V>>)
    requires capacity >= 1
    ensures DistinctKeys(Run(capacity, ttl, ops)) && |Run(capacity, ttl, ops)| <= capacity
    ensures forall item :: item in Run(capacity, ttl, ops) ==>
              && LastPut(ops, item.key).Some?
              && LastPut(ops, item.key).value.Put?
              && item == Item(item.key, LastPut(ops, item.key).value.value, LastPut(ops, item.key).value.now + ttl)
  {
    if ops != [] {
      CacheHoldsLastPuts(capacity, ttl, ops[..|ops| - 1]);
      StepIsSound(Run(capacity, ttl, ops[..|ops| - 1]), capacity, ttl, ops[|ops| - 1]);
    }
  }

  /** A get only ever returns the value last put under its key, and only before that has expired. */
  lemma GetReturnsLastPut<V>(capacity: int, ttl: int, ops: seq<Op<V>>, key: string, now: int)
    requires capacity >= 1
    ensures var r := AfterGet(Run(capacity, ttl, ops), key, now).1;
            r.Some? ==>
              && LastPut(ops, key).Some?
              && LastPut(ops, key).value.Put?
              && r.value == LastPut(ops, key).value.value
              && now <= LastPut(ops, key).value.now + ttl
  {
    CacheHoldsLastPuts(capacity, ttl, ops);
    var items := Run(capacity, ttl, ops);
    var i := Find(items, key);
    assert i < |items| ==> items[i] in items;
  }

  // ---------------------------------------------------------------- retention

  /** The keys that moved to the front in a step: those put, and those hit by a get. */
  function Touched<V>(items: seq<Item<V>>, op: Op<V>): set<string> {
    if op.Put? || AfterGet(items, op.key, op.now).1.Some? then {op.key} else {}
  }

  /** The keys touched from step `from` on. */
  function TouchedSince<V>(capacity: int, ttl: int, ops: seq<Op<V>>, from: nat): set<string>
    requires from <= |ops|
  {
    if from == |ops| then {}
    else
      TouchedSince(capacity, ttl, ops[..|ops| - 1], from)
      + Touched(Run(capacity, ttl, ops[..|ops| - 1]), ops[|ops| - 1])
  }

  /** `key` is present, and only keys of `allowed` are in front of it. */
  ghost predicate BehindOnly<V>(items: seq<Item<V>>, key: string, allowed: set<string>) {
    exists i :: 0 <= i < |items| && items[i].key == key && forall j :: 0 <= j < i ==> items[j].key in allowed
  }

  /** Distinct keys in front need as many allowed keys. */
  lemma {:induction false} PrefixFits<V>(items: seq<Item<V>>, n: nat, allowed: set<string>)
    requires DistinctKeys(items) && n <= |items|
    requires forall j :: 0 <= j < n ==> items[j].key in allowed
    ensures n <= |allowed|
    decreases n
  {
    if n > 0 {
      PrefixFits(items, n - 1, allowed - {items[n - 1].key});
    }
  }

  lemma RemovalKeepsBehind<V>(items: seq<Item<V>>, k: nat, key: string, allowed: set<string>)
    requires k < |items| && items[k].key != key && BehindOnly(items, key, allowed)
    ensures BehindOnly(Without(items, k), key, allowed)
  {
    var i :| 0 <= i < |items| && items[i].key == key && forall j :: 0 <= j < i ==> items[j].key in allowed;
    var rest := Without(items, k);
    var i' := if k < i then i - 1 else i;
    assert rest[i'] == items[i];
    assert forall j :: 0 <= j < i' ==> rest[j] == items[if j < k then j else j + 1];
  }

  lemma FrontKeepsBehind<V>(front: Item<V>, items: seq<Item<V>>, key: string, allowed: set<string>)
    requires BehindOnly(items, key, allowed)
    ensures BehindOnly([front] + items, key, allowed + {front.key})
  {
    var i :| 0 <= i < |items| && items[i].key == key && forall j :: 0 <= j < i ==> items[j].key in allowed;
    assert ([front] + items)[i + 1] == items[i];
    assert forall j :: 0 < j < i + 1 ==> ([front] + items)[j] == items[j - 1];
  }

  /** The eviction of a new put spares a key with few enough keys in front. */
  lemma EvictionSpares<V>(items: seq<Item<V>>, capacity: int, newcomer: string, key: string, allowed: set<string>)
    requires DistinctKeys(items) && items != [] && |items| >= capacity && BehindOnly(items, key, allowed)
    requires Find(items, newcomer) == |items| && |allowed + {newcomer}| < capacity
    ensures BehindOnly(items[..|items| - 1], key, allowed)
  {
    var i :| 0 <= i < |items| && items[i].key == key && forall j :: 0 <= j < i ==> items[j].key in allowed;
    PrefixFits(items, i, allowed - {newcomer});
    assert (allowed - {newcomer}) + {newcomer} == allowed + {newcomer};
    assert items[..|items| - 1][i] == items[i];
  }

  lemma StepRetains<V>(items: seq<Item<V>>, capacity: int, ttl: int, op: Op<V>, key: string, allowed: set<string>)
    requires DistinctKeys(items) && BehindOnly(items, key, allowed)
    requires |allowed + Touched(items, op)| < capacity
    requires op.key != key
    ensures BehindOnly(After(items, capacity, ttl, op), key, allowed + Touched(items, op))
  {
    var k := Find(items, op.key);
    if k < |items| {
      RemovalKeepsBehind(items, k, key, allowed);
      if After(items, capacity, ttl, op) != Without(items, k) {
        FrontKeepsBehind(After(items, capacity, ttl, op)[0], Without(items, k), key, allowed);
      }
    } else if op.Put? {
      var item := Item(op.key, op.value, op.now + ttl);
      if |items| >= capacity {
        EvictionSpares(items, capacity, op.key, key, allowed);
        FrontKeepsBehind(item, items[..|items| - 1], key, allowed);
      } else {
        FrontKeepsBehind(item, items, key, allowed);
      }
    } else {
      assert allowed + {} == allowed;
    }
  }

  /** One step of a history in which `key` is not touched: it stays, behind touched keys only. */
  lemma HistoryStepRetains<V>(capacity: int, ttl: int, ops: seq<Op<V>>, from: nat, key: string, now: int)
    requires capacity >= 1 && from < |ops| && ops[|ops| - 1].now <= now
    requires key !in TouchedSince(capacity, ttl, ops, from) && |TouchedSince(capacity, ttl, ops, from)| < capacity
    requires LastPut(ops, key).Some? ==> now <= LastPut(ops, key).value.now + ttl
    requires BehindOnly(Run(capacity, ttl, ops[..|ops| - 1]), key, TouchedSince(capacity, ttl, ops[..|ops| - 1], from))
    ensures BehindOnly(Run(capacity, ttl, ops), key, TouchedSince(capacity, ttl, ops, from))
  {
    var before := ops[..|ops| - 1];
    var items, op := Run(capacity, ttl, before), ops[|ops| - 1];
    CacheHoldsLastPuts(capacity, ttl, before);
    PresentIsFound(items, key, TouchedSince(capacity, ttl, before, from));
    assert items[Find(items, key)] in items;
    PresentKeyIsTouched(items, op);
    StepRetains(items, capacity, ttl, op, key, TouchedSince(capacity, ttl, before, from));
  }

  lemma PresentKeyIsTouched<V>(items: seq<Item<V>>, op: Op<V>)
    ensures var i := Find(items, op.key);
            i < |items| && op.now <= items[i].expiresAt ==> op.key in Touched(items, op)
  {
  }

  lemma PresentIsFound<V>(items: seq<Item<V>>, key: string, allowed: set<string>)
    requires BehindOnly(items, key, allowed)
    ensures Find(items, key) < |items|
  {
  }

  lemma TouchedIsFront<V>(capacity: int, ttl: int, ops: seq<Op<V>>, key: string)
    requires ops != [] && key in Touched(Run(capacity, ttl, ops[..|ops| - 1]), ops[|ops| - 1])
    ensures BehindOnly(Run(capacity, ttl, ops), key, {})
  {
    assert Run(capacity, ttl, ops)[0].key == key;
  }

  lemma TouchedLater<V>(capacity: int, ttl: int, ops: seq<Op<V>>, from: nat, key: string)
    requires from < |ops| && key !in TouchedSince(capacity, ttl, ops, from)
    ensures key !in TouchedSince(capacity, ttl, ops[..|ops| - 1], from)
    ensures |TouchedSince(capacity, ttl, ops[..|ops| - 1], from)| <= |TouchedSince(capacity, ttl, ops, from)|
    ensures LastPut(ops, key) == LastPut(ops[..|ops| - 1], key)
  {
    SubsetFits(TouchedSince(capacity, ttl, ops[..|ops| - 1], from), TouchedSince(capacity, ttl, ops, from));
    var op := ops[|ops| - 1];
    assert op.Put? ==> op.key in Touched(Run(capacity, ttl, ops[..|ops| - 1]), op);
  }

  lemma {:induction false} HistoryRetains<V>(capacity: int, ttl: int, ops: seq<Op<V>>, from: nat, key: string, now: int)
    requires capacity >= 1 && 1 <= from <= |ops|
    requires key in Touched(Run(capacity, ttl, ops[..from - 1]), ops[from - 1])
    requires key !in TouchedSince(capacity, ttl, ops, from) && |TouchedSince(capacity, ttl, ops, from)| < capacity
    requires forall m :: from <= m < |ops| ==> ops[m].now <= now
    requires LastPut(ops, key).Some? ==> now <= LastPut(ops, key).value.now + ttl
    ensures BehindOnly(Run(capacity, ttl, ops), key, TouchedSince(capacity, ttl, ops, from))
    decreases |ops|
  {
    var before := ops[..|ops| - 1];
    if from == |ops| {
      TouchedIsFront(capacity, ttl, ops, key);
    } else {
      assert before[..from - 1] == ops[..from - 1];
      TouchedLater(capacity, ttl, ops, from, key);
      HistoryRetains(capacity, ttl, before, from, key, now);
      HistoryStepRetains(capacity, ttl, ops, from, key, now);
    }
  }

  lemma SubsetFits(a: set<string>, b: set<string>)
    requires a <= b
    ensures |a| <= |b|
  {
    assert a + (b - a) == b;
  }

  /** A key is still there, with its last value, if fewer than `capacity` other keys were put or hit
      since it was last touched and it has not expired. */
  lemma RecentKeyIsRetained<V>(capacity: int, ttl: int, ops: seq<Op<V>>, from: nat, key: string, now: int)
    requires capacity >= 1 && 1 <= from <= |ops|
    requires key in Touched(Run(capacity, ttl, ops[..from - 1]), ops[from - 1])
    requires key !in TouchedSince(capacity, ttl, ops, from) && |TouchedSince(capacity, ttl, ops, from)| < capacity
    requires forall m :: from <= m < |ops| ==> ops[m].now <= now
    requires LastPut(ops, key).Some? ==> now <= LastPut(ops, key).value.now + ttl
    ensures LastPut(ops, key).Some? && LastPut(ops, key).value.Put?
    ensures AfterGet(Run(capacity, ttl, ops), key, now).1 == Some(LastPut(ops, key).value.value)
  {
    HistoryRetains(capacity, ttl, ops, from, key, now);
    CacheHoldsLastPuts(capacity, ttl, ops);
    var items := Run(capacity, ttl, ops);
    PresentIsFound(items, key, TouchedSince(capacity, ttl, ops, from));
    assert items[Find(items, key)] in items;
  }
}
