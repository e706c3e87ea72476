/** A capacity-bounded LRU cache with optional expiry, as a linked list of elements that a map points
    into, and what it holds after each operation. */
module Scratches {
  import opened Lex
  import opened Options

  type Time = int

  // ----- the cache as a value: most recently used first -----

  datatype Item<V> = Item(key: Key, val: V, expiry: Option<Time>)

  predicate Expired<V>(e: Item<V>, now: Time) {
    e.expiry.Some? && now >= e.expiry.value
  }

  /** The position of a key; the length if it is absent. */
  function Find<V>(items: seq<Item<V>>, key: Key): (i: nat)
    ensures i <= |items|
    ensures i < |items| ==> items[i].key == key
    ensures forall j :: 0 <= j < i ==> items[j].key != key
  {
    if items == [] || items[0].key == key then 0 else 1 + Find(items[1..], key)
  }

  predicate Has<V>(items: seq<Item<V>>, key: Key) {
    Find(items, key) < |items|
  }

  function Without<T>(s: seq<T>, i: nat): (r: seq<T>)
    requires i < |s|
    ensures |r| == |s| - 1
  {
    s[..i] + s[i + 1..]
  }

  /** `Set`: the item goes to the front; the last one is evicted if the cache overflows. */
  function SetItem<V>(items: seq<Item<V>>, cap: nat, e: Item<V>): seq<Item<V>>
  {
    var i := Find(items, e.key);
    if i < |items| then [e] + Without(items, i)
    else if |items| + 1 > cap then ([e] + items)[..|items|]
    else [e] + items
  }

  /** `Get`: a live item goes to the front, an expired one is removed. */
  function GetItems<V>(items: seq<Item<V>>, key: Key, now: Time): seq<Item<V>> {
    var i := Find(items, key);
    if i == |items| then items
    else if Expired(items[i], now) then Without(items, i)
    else [items[i]] + Without(items, i)
  }

  function GetValue<V>(items: seq<Item<V>>, key: Key, now: Time): Option<V> {
    var i := Find(items, key);
    if i == |items| || Expired(items[i], now) then None else Some(items[i].val)
  }

  function DeleteItem<V>(items: seq<Item<V>>, key: Key): seq<Item<V>> {
    var i := Find(items, key);
    if i == |items| then items else Without(items, i)
  }

  /** The unexpired items, in order. */
  function LiveItems<V>(items: seq<Item<V>>, now: Time): seq<Item<V>> {
    if items == [] then []
    else (if Expired(items[0], now) then [] else [items[0]]) + LiveItems(items[1..], now)
  }

  ghost predicate DistinctKeys<V>(items: seq<Item<V>>) {
    forall i, j :: 0 <= i < j < |items| ==> items[i].key != items[j].key
  }

  // ----- the linked implementation -----

  /** One list element; the map points at the same objects the list chains. */
  class Element<V> {
    const key: Key
    var val: V
    var expiry: Option<Time>

    constructor (key: Key, val: V, expiry: Option<Time>)
      ensures this.key == key && this.val == val && this.expiry == expiry
    {
      this.key, this.val, this.expiry := key, val, expiry;
    }

    function Show(): Item<V>
      reads this
    {
      Item(key, val, expiry)
    }
  }

  /** The map indexes exactly the list, and keys are distinct.  Keys never change. */
  ghost predicate Linked<V>(ll: seq<Element<V>>, m: map<Key, Element<V>>) {
    && (forall i, j :: 0 <= i < j < |ll| ==> ll[i].key != ll[j].key)
    && (forall i :: 0 <= i < |ll| ==> ll[i].key in m && m[ll[i].key] == ll[i])
    && (forall k :: k in m ==> m[k] in ll && m[k].key == k)
  }

  lemma WithoutMember<T>(s: seq<T>, i: nat, x: T)
    requires i < |s| && x in s && x != s[i]
    ensures x in Without(s, i)
  {
    var j :| 0 <= j < |s| && s[j] == x;
    assert Without(s, i)[if j < i then j else j - 1] == x;
  }

  lemma UnlinkKeeps<V>(ll: seq<Element<V>>, m: map<Key, Element<V>>, i: nat)
    requires Linked(ll, m) && i < |ll|
    ensures Linked(Without(ll, i), m - {ll[i].key})
  {
    var ll', m' := Without(ll, i), m - {ll[i].key};
    forall k | k in m' ensures m'[k] in ll' {
      WithoutMember(ll, i, m[k]);
    }
    forall j | 0 <= j < |ll'| ensures ll'[j].key in m' && m'[ll'[j].key] == ll'[j] {
      assert ll'[j] == ll[if j < i then j else j + 1];
    }
  }

  lemma PushKeeps<V>(ll: seq<Element<V>>, m: map<Key, Element<V>>, el: Element<V>)
    requires Linked(ll, m) && el.key !in m
    ensures Linked([el] + ll, m[el.key := el])
  {
  }

  lemma FrontKeeps<V>(ll: seq<Element<V>>, m: map<Key, Element<V>>, i: nat)
    requires Linked(ll, m) && i < |ll|
    ensures Linked([ll[i]] + Without(ll, i), m)
  {
    hide Without;
    UnlinkKeeps(ll, m, i);
    PushKeeps(Without(ll, i), m - {ll[i].key}, ll[i]);
    assert (m - {ll[i].key})[ll[i].key := ll[i]] == m;
  }

  ghost function ShowAll<V>(ll: seq<Element<V>>): (items: seq<Item<V>>)
    reads ll
    ensures |items| == |ll| && forall i :: 0 <= i < |ll| ==> items[i] == ll[i].Show()
  {
    seq(|ll|, i requires 0 <= i < |ll| reads ll => ll[i].Show())
  }

  lemma ShowWithout<V>(ll: seq<Element<V>>, i: nat)
    requires i < |ll|
    ensures ShowAll(Without(ll, i)) == Without(ShowAll(ll), i)
    ensures ShowAll([ll[i]] + Without(ll, i)) == [ShowAll(ll)[i]] + Without(ShowAll(ll), i)
  {
  }

  lemma ShowPush<V>(el: Element<V>, ll: seq<Element<V>>)
    ensures ShowAll([el] + ll) == [el.Show()] + ShowAll(ll)
  {
  }

  lemma ShowInit<V>(ll: seq<Element<V>>)
    requires ll != []
    ensures ShowAll(ll[..|ll| - 1]) == ShowAll(ll)[..|ll| - 1]
  {
  }

  lemma WithoutMiddle<T>(a: seq<T>, x: T, b: seq<T>)
    ensures Without(a + [x] + b, |a|) == a + b
  {
  }

  lemma FindShown<V>(ll: seq<Element<V>>, m: map<Key, Element<V>>, i: nat)
    requires Linked(ll, m) && i < |ll|
    ensures Find(ShowAll(ll), ll[i].key) == i
  {
    var f := Find(ShowAll(ll), ll[i].key);
    assert ShowAll(ll)[i].key == ll[i].key;
    assert f < |ll| ==> ll[f].key == ll[i].key;
  }

  lemma MissShown<V>(ll: seq<Element<V>>, m: map<Key, Element<V>>, key: Key)
    requires Linked(ll, m)
    ensures key in m <==> Has(ShowAll(ll), key)
  {
    if key in m {
      var i :| 0 <= i < |ll| && ll[i] == m[key];
      FindShown(ll, m, i);
    }
    if Has(ShowAll(ll), key) {
      assert ll[Find(ShowAll(ll), key)].key == key;
    }
  }

  lemma OthersDiffer<V>(ll: seq<Element<V>>, m: map<Key, Element<V>>)
    requires Linked(ll, m)
    ensures forall i :: 1 <= i < |ll| ==> ll[i] != ll[0]
  {
  }

  /** An element in front of all others: the same elements, linked and shown in the new order. */
  lemma FrontAll<V>(ll: seq<Element<V>>, m: map<Key, Element<V>>, i: nat)
    requires Linked(ll, m) && i < |ll|
    ensures var front := [ll[i]] + (ll[..i] + ll[i + 1..]);
            && front == [ll[i]] + Without(ll, i) && |front| == |ll| && Linked(front, m)
            && (forall x :: x in front ==> x in ll)
            && ShowAll(front) == [ShowAll(ll)[i]] + Without(ShowAll(ll), i)
  {
    hide Linked;
    FrontKeeps(ll, m, i);
    ShowWithout(ll, i);
  }

  class Scratch<V> {
    const cap: nat
    var ll: seq<Element<V>>
    var m: map<Key, Element<V>>

    ghost function Items(): (items: seq<Item<V>>)
      reads `ll, ll
      ensures items == ShowAll(ll)
    {
      ShowAll(ll)
    }

    ghost predicate Valid()
      reads this
    {
      1 <= cap && |ll| <= cap && Linked(ll, m)
    }

    constructor (capacity: int)
      ensures Valid() && Items() == [] && ll == []
      ensures cap == if capacity <= 0 then 1 else capacity
    {
      cap := if capacity <= 0 then 1 else capacity;
      ll, m := [], map[];
    }

    /** Finds the place of an element in the list. */
    method Locate(el: Element<V>, ghost at: nat) returns (i: nat)
      requires at < |ll| && ll[at] == el && Linked(ll, m)
      ensures i == at
    {
      i := 0;
      while ll[i] != el
        invariant i <= at
        decreases at - i
      {
        i := i + 1;
      }
    }

    method RemoveLocked(el: Element<V>, ghost at: nat)
      requires Valid() && at < |ll| && ll[at] == el
      modifies this
      ensures Valid() && ll == Without(old(ll), at) && Items() == Without(old(Items()), at)
      ensures forall x :: x in ll ==> x in old(ll)
    {
      UnlinkKeeps(ll, m, at);
      ShowWithout(ll, at);
      var i := Locate(el, at);
      hide Linked;
      ll := ll[..i] + ll[i + 1..];
      m := m - {el.key};
    }

    method MoveToFront(el: Element<V>, ghost at: nat)
      requires Valid() && at < |ll| && ll[at] == el
      modifies this`ll
      ensures Valid() && ll == [el] + Without(old(ll), at)
      ensures Items() == [old(Items())[at]] + Without(old(Items()), at)
      ensures forall x :: x in ll ==> x in old(ll)
    {
      hide Linked, Without;
      var i := Locate(el, at);
      FrontAll(ll, m, i);
      ll := [el] + (ll[..i] + ll[i + 1..]);
    }

    /** Overwrites the front element in place. */
    method OverwriteFront(el: Element<V>, val: V, expiry: Option<Time>)
      requires ll != [] && ll[0] == el && forall i :: 1 <= i < |ll| ==> ll[i] != el
      modifies el
      ensures Items() == [Item(el.key, val, expiry)] + old(Items())[1..]
    {
      ghost var before := Items();
      el.val := val;
      el.expiry := expiry;
      ghost var items := Items();
      assert items[0] == Item(el.key, val, expiry);
      forall i | 1 <= i < |ll| ensures items[i] == before[i] {
        assert ll[i] != el;
      }
    }

    /** Moves an element to the front and overwrites it there. */
    method Overwrite(el: Element<V>, val: V, expiry: Option<Time>, ghost at: nat)
      requires Valid() && at < |ll| && ll[at] == el
      modifies this`ll, el
      ensures Valid() && ll == [el] + Without(old(ll), at)
      ensures Items() == [Item(el.key, val, expiry)] + Without(old(Items()), at)
    {
      hide Linked, Without;
      MoveToFront(el, at);
      OthersDiffer(ll, m);
      OverwriteFront(el, val, expiry);
    }

    /** Links a new element at the front; the caller keeps the bound. */
    method PushFront(el: Element<V>)
      requires 1 <= cap && |ll| <= cap && Linked(ll, m) && el.key !in m
      modifies this
      ensures |ll| <= cap + 1 && Linked(ll, m) && ll == [el] + old(ll)
    {
      PushKeeps(ll, m, el);
      ll := [el] + ll;
      m := m[el.key := el];
    }

    method EvictOldest()
      requires |ll| > 0 && Linked(ll, m)
      modifies this
      ensures Linked(ll, m) && ll == old(ll)[..|old(ll)| - 1]
    {
      var last := ll[|ll| - 1];
      UnlinkKeeps(ll, m, |ll| - 1);
      assert Without(ll, |ll| - 1) == ll[..|ll| - 1];
      ll := ll[..|ll| - 1];
      m := m - {last.key};
    }

    /** A key that is not cached yet: the oldest entry makes room if need be. */
    method InsertNew(key: Key, val: V, expiry: Option<Time>)
      requires Valid() && key !in m
      modifies this
      ensures Valid() && fresh(set el | el in ll && el !in old(ll))
      ensures var all := [Item(key, val, expiry)] + old(Items());
              Items() == if |all| > cap then all[..|all| - 1] else all
    {
      hide Linked;
      ghost var before := Items();
      var el := new Element(key, val, expiry);
      PushFront(el);
      assert ShowAll(old(ll)) == before;
      ShowPush(el, old(ll));
      if |ll| > cap {
        ShowInit(ll);
        EvictOldest();
      }
    }

    /** Stores a value as most recently used; a positive ttl sets an expiry. */
    method Set(key: Key, val: V, ttl: int, now: Time)
      requires Valid()
      modifies this, ll
      ensures Valid() && fresh(set el | el in ll && el !in old(ll))
      ensures Items() == SetItem(old(Items()), cap, Item(key, val, if ttl > 0 then Some(now + ttl) else None))
    {
      hide Linked;
      var expiry := if ttl > 0 then Some(now + ttl) else None;
      MissShown(ll, m, key);
      if key in m {
        ghost var at := IndexOf(ll, m, key);
        FindShown(ll, m, at);
        Overwrite(m[key], val, expiry, at);
      } else {
        InsertNew(key, val, expiry);
      }
    }

    /** A hit marks the entry most recently used; an expired entry is removed. */
    method Get(key: Key, now: Time) returns (r: Option<V>)
      requires Valid()
      modifies this
      ensures Valid() && Items() == GetItems(old(Items()), key, now) && r == GetValue(old(Items()), key, now)
      ensures forall el :: el in ll ==> el in old(ll)
    {
      hide Linked;
      MissShown(ll, m, key);
      if key !in m {
        return None;
      }
      var el := m[key];
      ghost var at := IndexOf(ll, m, key);
      FindShown(ll, m, at);
      if el.expiry.Some? && now >= el.expiry.value {
        RemoveLocked(el, at);
        return None;
      }
      MoveToFront(el, at);
      r := Some(el.val);
    }

    method Delete(key: Key)
      requires Valid()
      modifies this
      ensures Valid() && Items() == DeleteItem(old(Items()), key)
      ensures forall el :: el in ll ==> el in old(ll)
    {
      hide Linked;
      MissShown(ll, m, key);
      if key in m {
        ghost var at := IndexOf(ll, m, key);
        FindShown(ll, m, at);
        RemoveLocked(m[key], at);
      }
    }

    /** Prunes expired entries from the back and reports how many are left. */
    method Len(now: Time) returns (n: nat)
      requires Valid()
      modifies this
      ensures Valid() && Items() == LiveItems(old(Items()), now) && n == |Items()|
      ensures forall el :: el in ll ==> el in old(ll)
    {
      hide Linked, Without, LiveItems, Pruned;
      ghost var before := Items();
      var i := |ll|;
      PrunedNone(before, now);
      while i > 0
        invariant Valid() && 0 <= i <= |ll| && i <= |before|
        invariant forall el :: el in ll ==> el in old(ll)
        invariant Items() == Pruned(before, i, now)
      {
        i := i - 1;
        PruneStep(before, i, now);
        var el := ll[i];
        if el.expiry.Some? && now >= el.expiry.value {
          RemoveLocked(el, i);
        }
      }
      PrunedAll(before, now);
      n := |ll|;
    }
  }

  /** The list after the items from position `i` on have been pruned. */
  function Pruned<V>(items: seq<Item<V>>, i: nat, now: Time): seq<Item<V>>
    requires i <= |items|
  {
    items[..i] + LiveItems(items[i..], now)
  }

  lemma PrunedNone<V>(items: seq<Item<V>>, now: Time)
    ensures Pruned(items, |items|, now) == items
  {
  }

  lemma PrunedAll<V>(items: seq<Item<V>>, now: Time)
    ensures Pruned(items, 0, now) == LiveItems(items, now)
  {
    assert items[0..] == items;
  }

  lemma PruneStep<V>(items: seq<Item<V>>, i: nat, now: Time)
    requires i < |items|
    ensures var p := Pruned(items, i + 1, now);
            && i < |p| && p[i] == items[i]
            && Pruned(items, i, now) == if Expired(items[i], now) then Without(p, i) else p
  {
    assert items[i..] == [items[i]] + items[i + 1..];
    assert items[..i + 1] == items[..i] + [items[i]];
    WithoutMiddle(items[..i], items[i], LiveItems(items[i + 1..], now));
  }

  ghost function IndexOf<V>(ll: seq<Element<V>>, m: map<Key, Element<V>>, key: Key): (i: nat)
    requires Linked(ll, m) && key in m
    ensures i < |ll| && ll[i] == m[key] && ll[i].key == key
  {
    var i :| 0 <= i < |ll| && ll[i] == m[key];
    i
  }
}
