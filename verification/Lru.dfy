/** What the LRU cache holds after any run of sets and gets. */
module Lru {
  import opened Lex
  import opened Options
  import opened Scratches

  datatype Op<V> = Set(key: Key, val: V) | Get(key: Key, now: Time)

  /** The cache after a run without expiries. */
  function Run<V>(cap: nat, ops: seq<Op<V>>): seq<Item<V>> {
    if ops == [] then []
    else
      var items := Run(cap, ops[..|ops| - 1]);
      match ops[|ops| - 1]
      case Set(k, v) => SetItem(items, cap, Item(k, v, None))
      case Get(k, now) => GetItems(items, k, now)
  }

  // ----- the reference: recency of use, without any cache -----

  function Drop(s: seq<Key>, k: Key): (r: seq<Key>)
    ensures forall x :: x in r <==> x in s && x != k
  {
    if s == [] then [] else (if s[0] == k then [] else [s[0]]) + Drop(s[1..], k)
  }

  /** The distinct keys of a list of uses, last used first. */
  function Recency(uses: seq<Key>): (r: seq<Key>)
    ensures forall x :: x in r <==> x in uses
  {
    if uses == [] then []
    else
      var k := uses[|uses| - 1];
      assert uses == uses[..|uses| - 1] + [k];
      [k] + Drop(Recency(uses[..|uses| - 1]), k)
  }

  function Take(s: seq<Key>, n: nat): seq<Key> {
    if |s| <= n then s else s[..n]
  }

  /** The keys used: set, or got while among the `cap` most recently used ones. */
  function Uses<V>(cap: nat, ops: seq<Op<V>>): seq<Key> {
    if ops == [] then []
    else
      var uses, op := Uses(cap, ops[..|ops| - 1]), ops[|ops| - 1];
      if op.Set? || op.key in Take(Recency(uses), cap) then uses + [op.key] else uses
  }

  /** The value last set for a key. */
  function LastSet<V>(ops: seq<Op<V>>, k: Key): Option<V> {
    if ops == [] then None
    else
      var op := ops[|ops| - 1];
      if op.Set? && op.key == k then Some(op.val) else LastSet(ops[..|ops| - 1], k)
  }

  // ----- lists of distinct keys -----

  predicate Distinct(s: seq<Key>) {
    forall i, j :: 0 <= i < j < |s| ==> s[i] != s[j]
  }

  lemma {:induction false} DropAbsent(s: seq<Key>, k: Key)
    requires k !in s
    ensures Drop(s, k) == s
  {
    if s != [] {
      DropAbsent(s[1..], k);
      assert s == [s[0]] + s[1..];
    }
  }

  lemma {:induction false} DropAt(s: seq<Key>, i: nat)
    requires Distinct(s) && i < |s|
    ensures Drop(s, s[i]) == Without(s, i)
  {
    if i == 0 {
      DropAbsent(s[1..], s[0]);
      assert Without(s, 0) == s[1..];
    } else {
      DropAt(s[1..], i - 1);
      assert Without(s, i) == [s[0]] + Without(s[1..], i - 1);
    }
  }

  lemma {:induction false} DropDistinct(s: seq<Key>, k: Key)
    requires Distinct(s)
    ensures Distinct(Drop(s, k))
  {
    if k in s {
      var i :| 0 <= i < |s| && s[i] == k;
      DropAt(s, i);
    } else {
      DropAbsent(s, k);
    }
  }

  lemma {:induction false} RecencyDistinct(uses: seq<Key>)
    ensures Distinct(Recency(uses))
  {
    if uses != [] {
      var r, k := Recency(uses[..|uses| - 1]), uses[|uses| - 1];
      RecencyDistinct(uses[..|uses| - 1]);
      DropDistinct(r, k);
      assert k !in Drop(r, k);
    }
  }

  /** Using a key moves it to the front of the recency list. */
  lemma RecencyUse(uses: seq<Key>, k: Key)
    ensures Recency(uses + [k]) == [k] + Drop(Recency(uses), k)
  {
    assert (uses + [k])[..|uses + [k]| - 1] == uses;
  }

  lemma TakeHit(r: seq<Key>, i: nat, cap: nat)
    requires cap >= 1 && i < |Take(r, cap)|
    ensures Take([r[i]] + Without(r, i), cap) == [r[i]] + Without(Take(r, cap), i)
  {
  }

  lemma TakeMiss(r: seq<Key>, i: nat, k: Key, cap: nat)
    requires cap >= 1 && cap <= i < |r|
    ensures Take([k] + Without(r, i), cap) == Take([k] + Take(r, cap), cap)
  {
  }

  lemma TakeNew(r: seq<Key>, k: Key, cap: nat)
    requires cap >= 1
    ensures Take([k] + r, cap) == Take([k] + Take(r, cap), cap)
  {
  }

  /** The first `cap` keys after a use, from the first `cap` keys before it. */
  lemma TakeUse(r: seq<Key>, k: Key, cap: nat)
    requires Distinct(r) && cap >= 1
    ensures var t := Take(r, cap);
            && (k !in t ==> Take([k] + Drop(r, k), cap) == Take([k] + t, cap))
            && forall i :: 0 <= i < |t| && t[i] == k ==> Take([k] + Drop(r, k), cap) == [k] + Without(t, i)
  {
    var t := Take(r, cap);
    if k in r {
      var i :| 0 <= i < |r| && r[i] == k;
      DropAt(r, i);
      hide Drop, Without;
      if i < |t| {
        assert t[i] == k;
        TakeHit(r, i, cap);
      } else {
        TakeMiss(r, i, k, cap);
      }
    } else {
      DropAbsent(r, k);
      TakeNew(r, k, cap);
    }
  }

  function Keys<V>(items: seq<Item<V>>): (r: seq<Key>)
    ensures |r| == |items| && forall i :: 0 <= i < |items| ==> r[i] == items[i].key
  {
    seq(|items|, i requires 0 <= i < |items| => items[i].key)
  }

  /** Every item is live and holds the value last set for its key. */
  ghost predicate Current<V>(ops: seq<Op<V>>, items: seq<Item<V>>) {
    forall i :: 0 <= i < |items| ==> items[i].expiry == None && LastSet(ops, items[i].key) == Some(items[i].val)
  }

  lemma FindInKeys<V>(items: seq<Item<V>>, k: Key)
    ensures Has(items, k) <==> k in Keys(items)
    ensures Has(items, k) ==> Keys(items)[Find(items, k)] == k
  {
    if k in Keys(items) {
      var i :| 0 <= i < |items| && Keys(items)[i] == k;
    }
  }

  lemma FrontKeys<V>(items: seq<Item<V>>, e: Item<V>, i: nat)
    requires i < |items|
    ensures Keys([e] + Without(items, i)) == [e.key] + Without(Keys(items), i)
  {
  }

  lemma SetKeys<V>(items: seq<Item<V>>, cap: nat, e: Item<V>)
    requires |items| <= cap
    ensures Keys(SetItem(items, cap, e)) ==
            if Has(items, e.key) then [e.key] + Without(Keys(items), Find(items, e.key))
            else Take([e.key] + Keys(items), cap)
  {
    hide Find;
    if Has(items, e.key) {
      FrontKeys(items, e, Find(items, e.key));
    } else {
      PushedKeys(items, cap, e);
    }
  }

  lemma PushedKeys<V>(items: seq<Item<V>>, cap: nat, e: Item<V>)
    requires |items| <= cap
    ensures Keys(if |items| + 1 > cap then ([e] + items)[..|items|] else [e] + items)
      == Take([e.key] + Keys(items), cap)
  {
    assert Keys([e] + items) == [e.key] + Keys(items);
    if |items| + 1 > cap {
      assert Keys(([e] + items)[..cap]) == Keys([e] + items)[..cap];
    }
  }

  lemma ItemsDistinct<V>(items: seq<Item<V>>)
    requires Distinct(Keys(items))
    ensures DistinctKeys(items)
  {
    forall i, j | 0 <= i < j < |items| ensures items[i].key != items[j].key {
      assert Keys(items)[i] != Keys(items)[j];
    }
  }

  lemma LastSetSnoc<V>(ops: seq<Op<V>>, op: Op<V>, k: Key)
    ensures LastSet(ops + [op], k) == if op.Set? && op.key == k then Some(op.val) else LastSet(ops, k)
  {
    assert (ops + [op])[..|ops + [op]| - 1] == ops;
  }

  lemma SetCurrent<V>(ops: seq<Op<V>>, items: seq<Item<V>>, cap: nat, k: Key, v: V)
    requires Current(ops, items) && DistinctKeys(items)
    ensures Current(ops + [Op.Set(k, v)], SetItem(items, cap, Item(k, v, None)))
  {
    var items', ops' := SetItem(items, cap, Item(k, v, None)), ops + [Op.Set(k, v)];
    forall i | 0 <= i < |items'|
      ensures items'[i].expiry == None && LastSet(ops', items'[i].key) == Some(items'[i].val)
    {
      LastSetSnoc(ops, Op.Set(k, v), items'[i].key);
    }
  }

  lemma GetCurrent<V>(ops: seq<Op<V>>, items: seq<Item<V>>, k: Key, now: Time)
    requires Current(ops, items)
    ensures Current(ops + [Op.Get(k, now)], GetItems(items, k, now))
  {
    var items', ops' := GetItems(items, k, now), ops + [Op.Get(k, now)];
    forall i | 0 <= i < |items'|
      ensures items'[i].expiry == None && LastSet(ops', items'[i].key) == Some(items'[i].val)
    {
      LastSetSnoc(ops, Op.Get(k, now), items'[i].key);
    }
  }

  /** The cache holds the `cap` most recently used keys of `uses`, with current values. */
  ghost predicate Agrees<V>(cap: nat, ops: seq<Op<V>>, items: seq<Item<V>>, uses: seq<Key>) {
    Keys(items) == Take(Recency(uses), cap) && Current(ops, items)
  }

  lemma SetAgrees<V>(cap: nat, ops: seq<Op<V>>, items: seq<Item<V>>, uses: seq<Key>, k: Key, v: V)
    requires cap >= 1 && Agrees(cap, ops, items, uses)
    ensures Agrees(cap, ops + [Op.Set(k, v)], SetItem(items, cap, Item(k, v, None)), uses + [k])
  {
    hide Recency, Drop, SetItem, Current, DistinctKeys, Find, Without, LastSet;
    RecencyDistinct(uses);
    ItemsDistinct(items);
    RecencyUse(uses, k);
    TakeUse(Recency(uses), k, cap);
    FindInKeys(items, k);
    SetKeys(items, cap, Item(k, v, None));
    SetCurrent(ops, items, cap, k, v);
  }

  lemma GetAgrees<V>(cap: nat, ops: seq<Op<V>>, items: seq<Item<V>>, uses: seq<Key>, k: Key, now: Time)
    requires cap >= 1 && Agrees(cap, ops, items, uses)
    ensures Agrees(cap, ops + [Op.Get(k, now)], GetItems(items, k, now),
                   if k in Take(Recency(uses), cap) then uses + [k] else uses)
  {
    hide Recency, Drop, Current, DistinctKeys, Find, Without, LastSet;
    FindInKeys(items, k);
    GetCurrent(ops, items, k, now);
    if Has(items, k) {
      RecencyDistinct(uses);
      RecencyUse(uses, k);
      TakeUse(Recency(uses), k, cap);
      FrontKeys(items, items[Find(items, k)], Find(items, k));
      CurrentAt(ops, items, Find(items, k));
    }
  }

  /** LRU refinement: after any run of sets and gets the cache holds exactly the `cap` most
      recently used distinct keys, in order of recency, each with the value last set for it. */
  lemma {:induction false} HoldsMostRecent<V>(cap: nat, ops: seq<Op<V>>)
    requires cap >= 1
    ensures Keys(Run(cap, ops)) == Take(Recency(Uses(cap, ops)), cap)
    ensures Current(ops, Run(cap, ops))
    decreases |ops|
  {
    if ops != [] {
      hide Recency, SetItem, Current, GetItems;
      var init, op := ops[..|ops| - 1], ops[|ops| - 1];
      assert ops == init + [op];
      HoldsMostRecent(cap, init);
      match op
      case Set(k, v) => SetAgrees(cap, init, Run(cap, init), Uses(cap, init), k, v);
      case Get(k, now) => GetAgrees(cap, init, Run(cap, init), Uses(cap, init), k, now);
    }
  }

  lemma CurrentAt<V>(ops: seq<Op<V>>, items: seq<Item<V>>, i: nat)
    requires Current(ops, items) && i < |items|
    ensures items[i].expiry == None
  {
  }
}
