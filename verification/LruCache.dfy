/** The LRU cache with expiry: a map and a list over shared, mutable entries. */
module LruCache {
  import opened Basics
  import opened RecencySpec

  /** A list element; the map and the list point to the same one. */
  class Entry<V> {
    const key: string
    var value: V
    var expiresAt: int

    constructor (key: string, value: V, expiresAt: int)
      ensures this.key == key && this.value == value && this.expiresAt == expiresAt
    {
      this.key, this.value, this.expiresAt := key, value, expiresAt;
    }
  }

  /** `list.Remove`: drops one element, by identity. */
  function Remove<V>(order: seq<Entry<V>>, el: Entry<V>): seq<Entry<V>> {
    if order == [] then [] else if order[0] == el then order[1..] else [order[0]] + Remove(order[1..], el)
  }

  lemma {:induction false} RemoveAt<V>(order: seq<Entry<V>>, i: nat)
    requires i < |order| && forall j :: 0 <= j < i ==> order[j] != order[i]
    ensures Remove(order, order[i]) == Without(order, i)
  {
    if i > 0 {
      var tail := order[1..];
      assert tail[i - 1] == order[i] && forall j :: 0 <= j < i - 1 ==> tail[j] == order[j + 1];
      RemoveAt(tail, i - 1);
      assert [order[0]] + Without(tail, i - 1) == Without(order, i);
    }
  }

  ghost predicate OnePerKey<V>(order: seq<Entry<V>>) {
    forall i, j :: 0 <= i < j < |order| ==> order[i].key != order[j].key
  }

  /** Map and list hold the same entries, one per key. */
  ghost predicate Consistent<V>(order: seq<Entry<V>>, items: map<string, Entry<V>>) {
    && OnePerKey(order)
    && (forall e :: e in order ==> e.key in items && items[e.key] == e)
    && (forall key :: key in items ==> items[key].key == key && items[key] in order)
  }

  ghost function ItemsOf<V>(order: seq<Entry<V>>): (s: seq<Item<V>>)
    reads order
    ensures |s| == |order|
    ensures forall i :: 0 <= i < |order| ==> s[i] == Item(order[i].key, order[i].value, order[i].expiresAt)
  {
    seq(|order|, i requires 0 <= i < |order| reads order => Item(order[i].key, order[i].value, order[i].expiresAt))
  }

  lemma KeysWithout<V>(order: seq<Entry<V>>, i: nat)
    requires OnePerKey(order) && i < |order|
    ensures OnePerKey(Without(order, i))
  {
  }

  lemma MembersWithout<V>(order: seq<Entry<V>>, i: nat)
    requires OnePerKey(order) && i < |order|
    ensures forall e :: e in order && e != order[i] ==> e in Without(order, i)
    ensures forall e :: e in Without(order, i) ==> e in order && e.key != order[i].key
  {
    var rest := Without(order, i);
    forall e | e in order && e != order[i] ensures e in rest {
      var j :| 0 <= j < |order| && order[j] == e;
      assert rest[if j < i then j else j - 1] == e;
    }
    forall e | e in rest ensures e in order && e.key != order[i].key {
      var j :| 0 <= j < |rest| && rest[j] == e;
      if j < i {
        assert order[j] == e;
      } else {
        assert order[j + 1] == e;
      }
    }
  }

  lemma ConsMembers<V>(entry: Entry<V>, order: seq<Entry<V>>)
    requires OnePerKey(order) && forall e :: e in order ==> e.key != entry.key
    ensures OnePerKey([entry] + order)
    ensures forall e :: e in [entry] + order <==> e == entry || e in order
  {
    forall j | 0 <= j < |order| ensures order[j].key != entry.key {
      assert order[j] in order;
    }
  }

  lemma DropIsConsistent<V>(order: seq<Entry<V>>, items: map<string, Entry<V>>, i: nat)
    requires Consistent(order, items) && i < |order|
    ensures Consistent(Without(order, i), items - {order[i].key})
  {
    KeysWithout(order, i);
    MembersWithout(order, i);
    assert order[i] in order;
  }

  lemma FrontIsConsistent<V>(order: seq<Entry<V>>, items: map<string, Entry<V>>, i: nat)
    requires Consistent(order, items) && i < |order|
    ensures Consistent([order[i]] + Without(order, i), items)
  {
    KeysWithout(order, i);
    MembersWithout(order, i);
    ConsMembers(order[i], Without(order, i));
    assert order[i] in order;
  }

  lemma PushIsConsistent<V>(order: seq<Entry<V>>, items: map<string, Entry<V>>, entry: Entry<V>)
    requires Consistent(order, items) && entry.key !in items
    ensures Consistent([entry] + order, items[entry.key := entry])
  {
    ConsMembers(entry, order);
  }

  lemma RemoveListed<V>(order: seq<Entry<V>>, i: nat)
    requires OnePerKey(order) && i < |order|
    ensures Remove(order, order[i]) == Without(order, i)
  {
    RemoveAt(order, i);
  }

  lemma ItemsWithout<V>(order: seq<Entry<V>>, i: nat)
    requires i < |order|
    ensures ItemsOf(Without(order, i)) == Without(ItemsOf(order), i)
  {
  }

  lemma ItemsCons<V>(entry: Entry<V>, order: seq<Entry<V>>)
    ensures ItemsOf([entry] + order) == [Item(entry.key, entry.value, entry.expiresAt)] + ItemsOf(order)
  {
  }

  lemma ItemsOfFront<V>(order: seq<Entry<V>>, i: nat)
    requires i < |order|
    ensures ItemsOf([order[i]] + Without(order, i)) == [ItemsOf(order)[i]] + Without(ItemsOf(order), i)
  {
    ItemsWithout(order, i);
    ItemsCons(order[i], Without(order, i));
  }

  class Cache<V> {
    const capacity: int
    const ttl: int
    var items: map<string, Entry<V>>
    var order: seq<Entry<V>>

    ghost predicate Valid()
      reads this
    {
      Consistent(order, items) && |order| <= if capacity < 1 then 1 else capacity
    }

    /** What the cache holds, most recently used first. */
    ghost function Items(): (s: seq<Item<V>>)
      reads this, order
    {
      ItemsOf(order)
    }

    constructor (capacity: int, ttl: int)
      ensures Valid() && Items() == [] && this.capacity == capacity && this.ttl == ttl && order == []
    {
      this.capacity, this.ttl := capacity, ttl;
      items, order := map[], [];
    }

    /** Where a key of the map stands in the list. */
    lemma Position(key: string) returns (i: nat)
      requires Valid() && key in items
      ensures i < |order| && order[i] == items[key] && Find(Items(), key) == i
    {
      i :| 0 <= i < |order| && order[i] == items[key];
      FindIs(Items(), key, i);
    }

    lemma Absent(key: string)
      requires Valid() && key !in items
      ensures Find(Items(), key) == |Items()|
    {
    }

    /** A hit moves to the front; an expired entry goes; a miss changes nothing. */
    method Get(key: string, now: int) returns (found: Option<V>)
      requires Valid()
      modifies this
      ensures Valid() && forall e :: e in order ==> e in old(order)
      ensures (Items(), found) == AfterGet(old(Items()), key, now)
    {
      if key !in items {
        Absent(key);
        return None;
      }
      ghost var i := Position(key);
      var el := items[key];
      if now > el.expiresAt {
        Drop(el, i);
        return None;
      }
      MoveToFront(el, i);
      found := Some(el.value);
    }

    method Put(key: string, value: V, now: int)
      requires Valid()
      modifies this, order
      ensures Valid() && forall e :: e in order ==> e in old(order) || fresh(e)
      ensures Items() == AfterPut(old(Items()), capacity, ttl, key, value, now)
    {
      if key in items {
        Overwrite(key, value, now);
      } else {
        Insert(key, value, now);
      }
    }

    method Overwrite(key: string, value: V, now: int)
      requires Valid() && key in items
      modifies this`order, order
      ensures Valid() && forall e :: e in order ==> e in old(order)
      ensures Items() == AfterPut(old(Items()), capacity, ttl, key, value, now)
    {
      ghost var i := Position(key);
      var el := items[key];
      MoveToFront(el, i);
      UpdateFront(value, now + ttl);
    }

    method Insert(key: string, value: V, now: int)
      requires Valid() && key !in items
      modifies this
      ensures Valid() && forall e :: e in order ==> e in old(order) || fresh(e)
      ensures Items() == AfterPut(old(Items()), capacity, ttl, key, value, now)
    {
      Absent(key);
      Evict();
      PushFront(key, value, now + ttl);
    }

    /** Drops the last entry of a full cache. */
    method Evict()
      requires Valid()
      modifies this
      ensures Valid() && (|order| < capacity || order == [])
      ensures items.Keys <= old(items).Keys && forall e :: e in order ==> e in old(order)
      ensures Items() == if |old(Items())| >= capacity && old(Items()) != [] then old(Items())[..|old(Items())| - 1]
                         else old(Items())
    {
      if |order| >= capacity && order != [] {
        assert Without(Items(), |Items()| - 1) == Items()[..|Items()| - 1];
        Drop(order[|order| - 1], |order| - 1);
      }
    }

    /** Takes an entry out of the list and the map. */
    method Drop(el: Entry<V>, ghost i: nat)
      requires Valid() && i < |order| && order[i] == el
      modifies this
      ensures Valid() && order == Without(old(order), i) && items == old(items) - {el.key}
      ensures Items() == Without(old(Items()), i)
    {
      RemoveListed(order, i);
      DropIsConsistent(order, items, i);
      ItemsWithout(order, i);
      order := Remove(order, el);
      items := items - {el.key};
    }

    method MoveToFront(el: Entry<V>, ghost i: nat)
      requires Valid() && i < |order| && order[i] == el
      modifies this`order
      ensures Valid() && order == [el] + Without(old(order), i) && forall e :: e in order ==> e in old(order)
      ensures Items() == [old(Items())[i]] + Without(old(Items()), i)
    {
      RemoveListed(order, i);
      FrontIsConsistent(order, items, i);
      ItemsOfFront(order, i);
      order := [el] + Remove(order, el);
    }

    /** Rewrites the entry at the front in place. */
    method UpdateFront(value: V, expiresAt: int)
      requires Valid() && order != []
      modifies order[0]
      ensures Valid() && Items() == [Item(order[0].key, value, expiresAt)] + old(Items())[1..]
    {
      order[0].value := value;
      order[0].expiresAt := expiresAt;
    }

    method PushFront(key: string, value: V, expiresAt: int)
      requires Valid() && key !in items && (|order| < capacity || order == [])
      modifies this
      ensures Valid() && |order| > 0 && fresh(order[0]) && order[1..] == old(order)
      ensures Items() == [Item(key, value, expiresAt)] + old(Items())
    {
      var entry := new Entry(key, value, expiresAt);
      PushIsConsistent(order, items, entry);
      ItemsCons(entry, order);
      order := [entry] + order;
      items := items[key := entry];
    }
  }

  lemma FindIs<V>(items: seq<Item<V>>, key: string, i: nat)
    requires i < |items| && items[i].key == key
    requires forall j, k :: 0 <= j < k < |items| ==> items[j].key != items[k].key
    ensures Find(items, key) == i
  {
  }
}
