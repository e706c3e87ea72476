/** Byte strings in lexicographic order. */
module Lex {

  type byte = b: int | 0 <= b < 256
  type Key = seq<byte>

  /** `a` sorts strictly before `b`. */
  predicate Less(a: Key, b: Key) {
    b != [] && (a == [] || a[0] < b[0] || (a[0] == b[0] && Less(a[1..], b[1..])))
  }

  predicate AtMost(a: Key, b: Key) {
    a == b || Less(a, b)
  }

  lemma {:induction false} Irreflexive(a: Key)
    ensures !Less(a, a)
  {
    if a != [] {
      Irreflexive(a[1..]);
    }
  }

  lemma {:induction false} Transitive(a: Key, b: Key, c: Key)
    requires Less(a, b) && Less(b, c)
    ensures Less(a, c)
  {
    if a != [] && a[0] == b[0] && b[0] == c[0] {
      Transitive(a[1..], b[1..], c[1..]);
    }
  }

  lemma {:induction false} Total(a: Key, b: Key)
    ensures Less(a, b) || a == b || Less(b, a)
  {
    if a != [] && b != [] && a[0] == b[0] {
      Total(a[1..], b[1..]);
      assert a == [a[0]] + a[1..] && b == [b[0]] + b[1..];
    }
  }

  lemma Asymmetric(a: Key, b: Key)
    requires Less(a, b)
    ensures !Less(b, a) && a != b
  {
    Irreflexive(a);
    if Less(b, a) {
      Transitive(a, b, a);
    }
  }

  /** A common prefix does not matter. */
  lemma {:induction false} PrefixCancels(p: Key, a: Key, b: Key)
    ensures Less(p + a, p + b) <==> Less(a, b)
  {
    if p == [] {
      assert p + a == a && p + b == b;
    } else {
      assert (p + a)[1..] == p[1..] + a && (p + b)[1..] == p[1..] + b;
      PrefixCancels(p[1..], a, b);
    }
  }

  /** The first difference decides, whatever follows it. */
  lemma {:induction false} EqualLengths(a: Key, b: Key, u: Key, v: Key)
    requires |a| == |b|
    ensures Less(a + u, b + v) <==> Less(a, b) || (a == b && Less(u, v))
  {
    if a == [] {
      assert a + u == u && b + v == v;
    } else {
      assert (a + u)[1..] == a[1..] + u && (b + v)[1..] == b[1..] + v;
      EqualLengths(a[1..], b[1..], u, v);
      assert a == [a[0]] + a[1..] && b == [b[0]] + b[1..];
    }
  }

  // ----- sorted lists of keys -----

  predicate Ascending(s: seq<Key>) {
    forall i, j :: 0 <= i < j < |s| ==> Less(s[i], s[j])
  }

  /** A set of keys has only one ascending enumeration. */
  lemma {:induction false} AscendingUnique(s: seq<Key>, t: seq<Key>)
    requires Ascending(s) && Ascending(t)
    requires forall k :: k in s <==> k in t
    ensures s == t
  {
    assert s != [] ==> s[0] in t;
    assert t != [] ==> t[0] in s;
    if s != [] {
      var i :| 0 <= i < |t| && t[i] == s[0];
      var j :| 0 <= j < |s| && s[j] == t[0];
      if i > 0 && j > 0 {
        Asymmetric(t[0], t[i]);
      }
      forall k ensures k in s[1..] <==> k in t[1..] {
        Irreflexive(s[0]);
        assert k in s[1..] ==> k in s;
        assert k in t[1..] ==> k in t;
        assert k in s && k != s[0] ==> k in s[1..];
        assert k in t && k != t[0] ==> k in t[1..];
      }
      AscendingUnique(s[1..], t[1..]);
      assert s == [s[0]] + s[1..] && t == [t[0]] + t[1..];
    }
  }

  /** Inserting into an ascending list. */
  function Insert(k: Key, s: seq<Key>): (r: seq<Key>)
    ensures forall x :: x in r <==> x == k || x in s
  {
    if s == [] || Less(k, s[0]) then [k] + s
    else if k == s[0] then s
    else [s[0]] + Insert(k, s[1..])
  }

  lemma {:induction false} InsertAscending(k: Key, s: seq<Key>)
    requires Ascending(s)
    ensures Ascending(Insert(k, s))
  {
    if s == [] {
    } else if Less(k, s[0]) {
      var r := [k] + s;
      forall i, j | 0 <= i < j < |r| ensures Less(r[i], r[j]) {
        if i == 0 && j > 1 {
          Transitive(k, s[0], s[j - 1]);
        }
      }
    } else if k != s[0] {
      Total(k, s[0]);
      InsertAscending(k, s[1..]);
      var r, t := Insert(k, s), Insert(k, s[1..]);
      forall i, j | 0 <= i < j < |r| ensures Less(r[i], r[j]) {
        if i == 0 {
          assert t[j - 1] in t;
        }
      }
    }
  }
}
