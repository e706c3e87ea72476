/** What the standard library's stable sort promises, that the promise determines its result, and when the
    order of the input does not matter. */
module Sorting {

  /** `le` is total and transitive on the elements of `dom`. */
  ghost predicate Ranks<T>(le: (T, T) -> bool, dom: seq<T>) {
    && (forall a, b :: a in dom && b in dom ==> le(a, b) || le(b, a))
    && (forall a, b, c :: a in dom && b in dom && c in dom && le(a, b) && le(b, c) ==> le(a, c))
  }

  ghost predicate Among<T>(s: seq<T>, dom: seq<T>) {
    forall i :: 0 <= i < |s| ==> s[i] in dom
  }

  ghost predicate Ordered<T>(le: (T, T) -> bool, s: seq<T>) {
    forall i, j :: 0 <= i < j < |s| ==> le(s[i], s[j])
  }

  predicate Tied<T>(le: (T, T) -> bool, a: T, b: T) {
    le(a, b) && le(b, a)
  }

  /** The elements that rank the same as `x`, in order. */
  function Ties<T>(le: (T, T) -> bool, s: seq<T>, x: T): seq<T> {
    if s == [] then [] else (if Tied(le, x, s[0]) then [s[0]] else []) + Ties(le, s[1..], x)
  }

  /** `t` lists `s` by rank and keeps the order of elements that rank the same. */
  ghost predicate StablySorts<T>(le: (T, T) -> bool, s: seq<T>, t: seq<T>) {
    Ordered(le, t) && multiset(t) == multiset(s) && forall x :: x in s ==> Ties(le, t, x) == Ties(le, s, x)
  }

  function Place<T>(le: (T, T) -> bool, x: T, s: seq<T>): (r: seq<T>)
    ensures |r| == |s| + 1
  {
    if s == [] || le(x, s[0]) then [x] + s else [s[0]] + Place(le, x, s[1..])
  }

  function SortStable<T>(le: (T, T) -> bool, s: seq<T>): (r: seq<T>)
    ensures |r| == |s|
  {
    if s == [] then [] else Place(le, s[0], SortStable(le, s[1..]))
  }

  // ----- elements -----

  lemma {:induction false} PlaceElements<T>(le: (T, T) -> bool, x: T, s: seq<T>)
    ensures multiset(Place(le, x, s)) == multiset([x] + s)
  {
    if s != [] && !le(x, s[0]) {
      PlaceElements(le, x, s[1..]);
      assert s == [s[0]] + s[1..];
    }
  }

  lemma {:induction false} SortElements<T>(le: (T, T) -> bool, s: seq<T>)
    ensures multiset(SortStable(le, s)) == multiset(s)
  {
    if s != [] {
      SortElements(le, s[1..]);
      PlaceElements(le, s[0], SortStable(le, s[1..]));
      assert s == [s[0]] + s[1..];
    }
  }

  lemma {:induction false} PlaceAmong<T>(le: (T, T) -> bool, x: T, s: seq<T>, dom: seq<T>)
    requires x in dom && Among(s, dom)
    ensures Among(Place(le, x, s), dom)
  {
    if s != [] && !le(x, s[0]) {
      PlaceAmong(le, x, s[1..], dom);
    }
  }

  lemma {:induction false} SortAmong<T>(le: (T, T) -> bool, s: seq<T>, dom: seq<T>)
    requires Among(s, dom)
    ensures Among(SortStable(le, s), dom)
  {
    if s != [] {
      SortAmong(le, s[1..], dom);
      PlaceAmong(le, s[0], SortStable(le, s[1..]), dom);
    }
  }

  // ----- order -----

  ghost predicate AtMostAll<T>(le: (T, T) -> bool, x: T, s: seq<T>) {
    forall i :: 0 <= i < |s| ==> le(x, s[i])
  }

  lemma {:induction false} PlaceAtMostAll<T>(le: (T, T) -> bool, y: T, x: T, s: seq<T>)
    requires le(y, x) && AtMostAll(le, y, s)
    ensures AtMostAll(le, y, Place(le, x, s))
  {
    if s != [] && !le(x, s[0]) {
      PlaceAtMostAll(le, y, x, s[1..]);
    }
  }

  lemma FirstAtMostAll<T>(le: (T, T) -> bool, x: T, s: seq<T>, dom: seq<T>)
    requires Ranks(le, dom) && x in dom && Among(s, dom) && Ordered(le, s)
    requires s != [] && le(x, s[0])
    ensures AtMostAll(le, x, s)
  {
  }

  lemma OrderedStep<T>(le: (T, T) -> bool, x: T, s: seq<T>)
    requires Ordered(le, s) && AtMostAll(le, x, s)
    ensures Ordered(le, [x] + s)
  {
  }

  lemma {:induction false} PlaceOrdered<T>(le: (T, T) -> bool, x: T, s: seq<T>, dom: seq<T>)
    requires Ranks(le, dom) && x in dom && Among(s, dom) && Ordered(le, s)
    ensures Ordered(le, Place(le, x, s))
  {
    if s == [] {
    } else if le(x, s[0]) {
      FirstAtMostAll(le, x, s, dom);
      OrderedStep(le, x, s);
    } else {
      PlaceOrdered(le, x, s[1..], dom);
      assert le(s[0], x) && AtMostAll(le, s[0], s[1..]);
      PlaceAtMostAll(le, s[0], x, s[1..]);
      OrderedStep(le, s[0], Place(le, x, s[1..]));
    }
  }

  lemma {:induction false} SortOrdered<T>(le: (T, T) -> bool, s: seq<T>, dom: seq<T>)
    requires Ranks(le, dom) && Among(s, dom)
    ensures Ordered(le, SortStable(le, s))
  {
    if s != [] {
      SortOrdered(le, s[1..], dom);
      SortAmong(le, s[1..], dom);
      PlaceOrdered(le, s[0], SortStable(le, s[1..]), dom);
    }
  }

  lemma SortMembers<T>(le: (T, T) -> bool, s: seq<T>)
    ensures forall x :: x in SortStable(le, s) <==> x in s
  {
    SortElements(le, s);
    forall x ensures x in SortStable(le, s) <==> x in s {
      assert x in s <==> x in multiset(s);
      assert x in SortStable(le, s) <==> x in multiset(SortStable(le, s));
    }
  }

  lemma IndexOf<T>(s: seq<T>, x: T) returns (k: nat)
    requires x in s
    ensures k < |s| && s[k] == x
  {
    k :| 0 <= k < |s| && s[k] == x;
  }

  /** An element that does not come before position `i` of the sorted list ranks no earlier than it. */
  lemma SortedFirst<T>(le: (T, T) -> bool, s: seq<T>, i: nat, x: T)
    requires Ranks(le, s) && i < |s| && x in s
    requires forall k :: 0 <= k < i ==> SortStable(le, s)[k] != x
    ensures le(SortStable(le, s)[i], x)
  {
    assert le(x, x);
    SortOrdered(le, s, s);
    SortMembers(le, s);
    hide SortStable, Ranks;
    var k := IndexOf(SortStable(le, s), x);
    assert i == k || i < k;
  }

  // ----- ties -----

  lemma TiesFirst<T>(le: (T, T) -> bool, x: T, s: seq<T>, y: T)
    ensures Ties(le, [x] + s, y) == (if Tied(le, y, x) then [x] else []) + Ties(le, s, y)
  {
    assert ([x] + s)[1..] == s;
  }

  lemma {:induction false} PlaceTies<T>(le: (T, T) -> bool, x: T, s: seq<T>, y: T, dom: seq<T>)
    requires Ranks(le, dom) && x in dom && y in dom && Among(s, dom)
    ensures Ties(le, Place(le, x, s), y) == (if Tied(le, y, x) then [x] else []) + Ties(le, s, y)
  {
    TiesFirst(le, x, s, y);
    if s != [] && !le(x, s[0]) {
      PlaceTies(le, x, s[1..], y, dom);
      TiesFirst(le, s[0], Place(le, x, s[1..]), y);
      assert !(Tied(le, y, x) && Tied(le, y, s[0]));
    }
  }

  lemma {:induction false} SortTies<T>(le: (T, T) -> bool, s: seq<T>, y: T, dom: seq<T>)
    requires Ranks(le, dom) && y in dom && Among(s, dom)
    ensures Ties(le, SortStable(le, s), y) == Ties(le, s, y)
  {
    if s != [] {
      SortTies(le, s[1..], y, dom);
      SortAmong(le, s[1..], dom);
      PlaceTies(le, s[0], SortStable(le, s[1..]), y, dom);
    }
  }

  /** The function meets the promise. */
  lemma SortsStably<T>(le: (T, T) -> bool, s: seq<T>)
    requires Ranks(le, s)
    ensures StablySorts(le, s, SortStable(le, s))
  {
    SortOrdered(le, s, s);
    SortElements(le, s);
    forall x | x in s ensures Ties(le, SortStable(le, s), x) == Ties(le, s, x) {
      SortTies(le, s, x, s);
    }
  }

  // ----- uniqueness -----

  lemma {:induction false} TiesMember<T>(le: (T, T) -> bool, s: seq<T>, x: T) returns (i: nat)
    requires Ties(le, s, x) != []
    ensures i < |s| && Tied(le, x, s[i])
  {
    if Tied(le, x, s[0]) {
      i := 0;
    } else {
      var k := TiesMember(le, s[1..], x);
      i := k + 1;
    }
  }

  /** If `x` ties with some element, the first element ranks no later than `x`. */
  lemma FirstAtMost<T>(le: (T, T) -> bool, s: seq<T>, x: T, dom: seq<T>)
    requires Ranks(le, dom) && Among(s, dom) && x in dom && Ordered(le, s) && Ties(le, s, x) != []
    ensures s != [] && le(s[0], x)
  {
    var i := TiesMember(le, s, x);
    assert s[0] in dom && s[i] in dom;
    assert i == 0 || le(s[0], s[i]);
  }

  lemma TiesOwn<T>(le: (T, T) -> bool, s: seq<T>, dom: seq<T>)
    requires Ranks(le, dom) && Among(s, dom) && s != []
    ensures Ties(le, s, s[0]) == [s[0]] + Ties(le, s[1..], s[0])
  {
    assert s[0] in dom && le(s[0], s[0]);
  }

  lemma TiesRest<T>(le: (T, T) -> bool, x: T, a: seq<T>, b: seq<T>, y: T)
    requires Ties(le, [x] + a, y) == Ties(le, [x] + b, y)
    ensures Ties(le, a, y) == Ties(le, b, y)
  {
    TiesFirst(le, x, a, y);
    TiesFirst(le, x, b, y);
    if Tied(le, y, x) {
      assert Ties(le, a, y) == ([x] + Ties(le, a, y))[1..];
      assert Ties(le, b, y) == ([x] + Ties(le, b, y))[1..];
    }
  }

  ghost predicate SameTies<T>(le: (T, T) -> bool, a: seq<T>, b: seq<T>, dom: seq<T>) {
    forall x :: x in dom ==> Ties(le, a, x) == Ties(le, b, x)
  }

  lemma SameFirst<T>(le: (T, T) -> bool, a: seq<T>, b: seq<T>, dom: seq<T>)
    requires Ranks(le, dom) && Among(a, dom) && Among(b, dom) && Ordered(le, a) && Ordered(le, b)
    requires SameTies(le, a, b, dom) && a != []
    ensures b != [] && a[0] == b[0]
  {
    TiesOwn(le, a, dom);
    assert a[0] in dom && Ties(le, a, a[0]) == Ties(le, b, a[0]);
    FirstAtMost(le, b, a[0], dom);
    TiesOwn(le, b, dom);
    assert b[0] in dom && Ties(le, a, b[0]) == Ties(le, b, b[0]);
    FirstAtMost(le, a, b[0], dom);
    assert Ties(le, b, a[0])[0] == b[0];
  }

  /** The promise leaves no choice, whatever algorithm keeps it. */
  lemma {:induction false} OnlyOneStableSort<T>(le: (T, T) -> bool, a: seq<T>, b: seq<T>, dom: seq<T>)
    requires Ranks(le, dom) && Among(a, dom) && Among(b, dom) && Ordered(le, a) && Ordered(le, b)
    requires SameTies(le, a, b, dom)
    ensures a == b
  {
    if a == [] {
      if b != [] {
        SameFirst(le, b, a, dom);
      }
    } else {
      SameFirst(le, a, b, dom);
      var a', b' := a[1..], b[1..];
      assert a == [a[0]] + a' && b == [a[0]] + b';
      forall x | x in dom ensures Ties(le, a', x) == Ties(le, b', x) {
        TiesRest(le, a[0], a', b', x);
      }
      OnlyOneStableSort(le, a', b', dom);
    }
  }

  /** Sorting does not see an order in which no ties are exchanged. */
  lemma SortForgetsOrder<T>(le: (T, T) -> bool, s: seq<T>, t: seq<T>, dom: seq<T>)
    requires Ranks(le, dom) && Among(s, dom) && Among(t, dom) && SameTies(le, s, t, dom)
    ensures SortStable(le, s) == SortStable(le, t)
  {
    SortOrdered(le, s, dom);
    SortOrdered(le, t, dom);
    SortAmong(le, s, dom);
    SortAmong(le, t, dom);
    forall x | x in dom ensures Ties(le, SortStable(le, s), x) == Ties(le, SortStable(le, t), x) {
      SortTies(le, s, x, dom);
      SortTies(le, t, x, dom);
    }
    OnlyOneStableSort(le, SortStable(le, s), SortStable(le, t), dom);
  }

  ghost predicate Untied<T>(le: (T, T) -> bool, s: seq<T>) {
    forall i, j :: 0 <= i < j < |s| ==> !Tied(le, s[i], s[j]) && !Tied(le, s[j], s[i])
  }

  lemma {:induction false} UntiedTies<T>(le: (T, T) -> bool, s: seq<T>, x: T)
    requires Untied(le, s) && x in s && le(x, x)
    ensures Ties(le, s, x) == [x]
  {
    if s[0] == x {
      NoTies(le, s[1..], x);
    } else {
      assert x in s[1..];
      UntiedTies(le, s[1..], x);
    }
  }

  lemma {:induction false} NoTies<T>(le: (T, T) -> bool, s: seq<T>, x: T)
    requires forall i :: 0 <= i < |s| ==> !Tied(le, x, s[i])
    ensures Ties(le, s, x) == []
  {
    if s != [] {
      NoTies(le, s[1..], x);
    }
  }

  ghost predicate TiesNone<T>(le: (T, T) -> bool, x: T, s: seq<T>) {
    forall i :: 0 <= i < |s| ==> !Tied(le, x, s[i])
  }

  lemma {:induction false} PlaceTiesNone<T>(le: (T, T) -> bool, y: T, x: T, s: seq<T>)
    requires !Tied(le, y, x) && TiesNone(le, y, s)
    ensures TiesNone(le, y, Place(le, x, s))
  {
    if s != [] && !le(x, s[0]) {
      PlaceTiesNone(le, y, x, s[1..]);
    }
  }

  lemma {:induction false} SortTiesNone<T>(le: (T, T) -> bool, y: T, s: seq<T>)
    requires TiesNone(le, y, s)
    ensures TiesNone(le, y, SortStable(le, s))
  {
    if s != [] {
      SortTiesNone(le, y, s[1..]);
      PlaceTiesNone(le, y, s[0], SortStable(le, s[1..]));
    }
  }

  lemma UntiedStep<T>(le: (T, T) -> bool, x: T, s: seq<T>)
    requires Untied(le, s) && TiesNone(le, x, s)
    ensures Untied(le, [x] + s)
  {
  }

  lemma {:induction false} PlaceUntied<T>(le: (T, T) -> bool, x: T, s: seq<T>)
    requires Untied(le, s) && TiesNone(le, x, s)
    ensures Untied(le, Place(le, x, s))
  {
    if s == [] || le(x, s[0]) {
      UntiedStep(le, x, s);
    } else {
      PlaceUntied(le, x, s[1..]);
      assert !Tied(le, x, s[0]) && TiesNone(le, s[0], s[1..]);
      PlaceTiesNone(le, s[0], x, s[1..]);
      UntiedStep(le, s[0], Place(le, x, s[1..]));
    }
  }

  /** Sorting creates no ties. */
  lemma {:induction false} SortUntied<T>(le: (T, T) -> bool, s: seq<T>)
    requires Untied(le, s)
    ensures Untied(le, SortStable(le, s))
  {
    if s != [] {
      SortUntied(le, s[1..]);
      assert TiesNone(le, s[0], s[1..]);
      SortTiesNone(le, s[0], s[1..]);
      PlaceUntied(le, s[0], SortStable(le, s[1..]));
    }
  }

  // ----- comparisons -----

  /** A stable sort compares an element with later ones only. */
  ghost predicate Agree<T>(le: (T, T) -> bool, le': (T, T) -> bool, s: seq<T>) {
    forall i, j :: 0 <= i < j < |s| ==> le(s[i], s[j]) == le'(s[i], s[j])
  }

  lemma {:induction false} SortSameOrder<T>(le: (T, T) -> bool, le': (T, T) -> bool, s: seq<T>)
    requires Agree(le, le', s)
    ensures SortStable(le, s) == SortStable(le', s)
  {
    if s != [] {
      SortSameOrder(le, le', s[1..]);
      SortAmong(le, s[1..], s[1..]);
      PlaceSameOrder(le, le', s[0], SortStable(le, s[1..]));
    }
  }

  lemma {:induction false} PlaceSameOrder<T>(le: (T, T) -> bool, le': (T, T) -> bool, x: T, s: seq<T>)
    requires forall i :: 0 <= i < |s| ==> le(x, s[i]) == le'(x, s[i])
    ensures Place(le, x, s) == Place(le', x, s)
  {
    if s != [] {
      PlaceSameOrder(le, le', x, s[1..]);
    }
  }
}
