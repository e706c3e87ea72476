/** A host's key/value store, with its in-memory and its durable enumeration of keys. */
module Stores {
  import opened Lex
  import opened Options

  /** Raw JSON: a journal entry is the one shape the memory manager decodes. */
  datatype Raw = Text(bytes: seq<byte>) | Entry(key: Key, val: Raw)

  predicate HasPrefix(k: Key, p: Key) {
    |p| <= |k| && k[..|p|] == p
  }

  // ----- the exclusive upper bound of a prefix -----

  /** The prefix with its last byte below 0xff incremented and everything after it dropped. */
  function UpperBound(p: Key): Option<Key> {
    if p == [] then None
    else if p[|p| - 1] != 255 then Some(p[..|p| - 1] + [p[|p| - 1] + 1])
    else UpperBound(p[..|p| - 1])
  }

  /** Computes the bound by editing a buffer from its end. */
  method PrefixUpperBound(prefix: Key) returns (bound: Option<Key>)
    ensures bound == UpperBound(prefix)
  {
    var b := new byte[|prefix|](i requires 0 <= i < |prefix| => prefix[i]);
    var i := |prefix| - 1;
    assert prefix[..i + 1] == prefix;
    while i >= 0
      invariant -1 <= i < |prefix|
      invariant b[..] == prefix
      invariant UpperBound(prefix) == UpperBound(prefix[..i + 1])
    {
      assert prefix[..i + 1][..i] == prefix[..i];
      if b[i] != 255 {
        b[i] := b[i] + 1;
        bound := Some(b[..i + 1]);
        assert b[..i + 1] == prefix[..i] + [prefix[i] + 1];
        return;
      }
      i := i - 1;
    }
    bound := None;
  }

  /** Does `k` lie in the scanned range? */
  predicate InRange(k: Key, p: Key) {
    AtMost(p, k) && (UpperBound(p).None? || Less(k, UpperBound(p).value))
  }

  /** The bound of a prefix that starts with `x`. */
  lemma {:induction false} UpperBoundCons(x: byte, p: Key)
    ensures UpperBound([x] + p) ==
            match UpperBound(p)
            case Some(u) => Some([x] + u)
            case None => if x == 255 then None else Some([x + 1])
  {
    if p == [] {
      assert [x] + p == [x] && [x][..0] == [];
      if x != 255 {
        assert [x][..0] + [x + 1] == [x + 1];
      }
    } else {
      var q := [x] + p;
      assert q[..|q| - 1] == [x] + p[..|p| - 1];
      if p[|p| - 1] == 255 {
        UpperBoundCons(x, p[..|p| - 1]);
      } else {
        assert q[..|q| - 1] + [q[|q| - 1] + 1] == [x] + (p[..|p| - 1] + [p[|p| - 1] + 1]);
      }
    }
  }

  /** The scanned range holds exactly the keys with the prefix, carries through 0xff included. */
  lemma {:induction false} RangeIsPrefix(k: Key, p: Key)
    requires p != []
    ensures InRange(k, p) <==> HasPrefix(k, p)
    decreases p
  {
    var x, q := p[0], p[1..];
    assert p == [x] + q;
    UpperBoundCons(x, q);
    if k != [] {
      var l := k[1..];
      assert k == [k[0]] + l;
      assert p == k <==> x == k[0] && q == l;
      assert AtMost(p, k) <==> x < k[0] || (x == k[0] && AtMost(q, l));
      assert AtMost([], l);
      PrefixCons(k, p);
      if x != 255 {
        LessThanNext(k, x);
      }
      if q != [] {
        RangeIsPrefix(l, q);
        if UpperBound(q).Some? {
          var u := UpperBound(q).value;
          assert ([x] + u)[1..] == u;
        }
      }
    }
  }

  lemma PrefixCons(k: Key, p: Key)
    requires k != [] && p != []
    ensures HasPrefix(k, p) <==> k[0] == p[0] && HasPrefix(k[1..], p[1..])
  {
    if |p| <= |k| {
      assert k[..|p|] == [k[0]] + k[1..][..|p| - 1];
      assert p == [p[0]] + p[1..];
    }
  }

  lemma LessThanNext(k: Key, x: byte)
    requires k != [] && x != 255
    ensures Less(k, [x + 1]) <==> k[0] <= x
  {
  }

  // ----- enumerating keys -----

  /** The ascending enumeration of a set of keys. */
  ghost function Sorted(s: set<Key>): (r: seq<Key>)
    ensures Ascending(r) && forall k :: k in r <==> k in s
  {
    if s == {} then []
    else
      var k :| k in s;
      var r := Sorted(s - {k});
      InsertAscending(k, r);
      Insert(k, r)
  }

  /** The keys an enumeration of `prefix` yields: the durable form hides every key that starts with byte 0. */
  ghost function Selected(data: map<Key, Raw>, durable: bool, prefix: Key): set<Key> {
    set k | k in data && HasPrefix(k, prefix) && !(durable && HasPrefix(k, [0]))
  }

  /** For prefixes that do not start with byte 0 (the empty one aside) both forms list the same keys. */
  lemma FormsAgree(data: map<Key, Raw>, prefix: Key)
    requires prefix != [] && prefix[0] != 0
    ensures Selected(data, true, prefix) == Selected(data, false, prefix)
  {
    forall k | HasPrefix(k, prefix) ensures !HasPrefix(k, [0]) {
      PrefixCons(k, prefix);
      assert k[..1] == [k[0]];
    }
  }

  /** The durable form lists nothing at all under a prefix that starts with byte 0. */
  lemma DurableHidesReserved(data: map<Key, Raw>, prefix: Key)
    requires prefix != [] && prefix[0] == 0
    ensures Selected(data, true, prefix) == {}
  {
    forall k | HasPrefix(k, prefix) ensures HasPrefix(k, [0]) {
      assert k[..1] == [k[0]];
      PrefixCons(k, prefix);
    }
  }

  class Store {
    const durable: bool
    var data: map<Key, Raw>
    var closed: bool

    constructor (durable: bool)
      ensures this.durable == durable && data == map[] && !closed
    {
      this.durable, data, closed := durable, map[], false;
    }

    method Close()
      modifies this
      ensures closed && data == old(data)
    {
      closed := true;
    }

    method GetRaw(key: Key) returns (r: Option<Raw>)
      ensures r == if !closed && key in data then Some(data[key]) else None
    {
      if closed {
        return None;
      }
      r := if key in data then Some(data[key]) else None;
    }

    /** Reports failure, and writes nothing, once the store is closed. */
    method SetRaw(key: Key, v: Raw) returns (ok: bool)
      modifies this`data
      ensures ok == !closed && data == if closed then old(data) else old(data)[key := v]
    {
      if closed {
        return false;
      }
      data := data[key := v];
      ok := true;
    }

    method Delete(key: Key) returns (ok: bool)
      modifies this`data
      ensures ok == !closed && data == if closed then old(data) else old(data) - {key}
    {
      if closed {
        return false;
      }
      data := data - {key};
      ok := true;
    }

    /** The backend's iterator: the keys of a range in ascending order; `lower == []` is unbounded. */
    method Iterate(lower: Key, upper: Option<Key>) returns (ks: seq<Key>)
      ensures Ascending(ks)
      ensures forall k :: k in ks <==> k in data && AtMost(lower, k) && (upper.None? || Less(k, upper.value))
    {
      ks := [];
      var todo := data.Keys;
      while todo != {}
        invariant todo <= data.Keys && Ascending(ks)
        invariant forall k :: k in ks <==>
          k in data && k !in todo && AtMost(lower, k) && (upper.None? || Less(k, upper.value))
        decreases |todo|
      {
        var k :| k in todo;
        if AtMost(lower, k) && (upper.None? || Less(k, upper.value)) {
          InsertAscending(k, ks);
          ks := Insert(k, ks);
        }
        todo := todo - {k};
      }
    }

    /** The keys with a prefix, ascending.  The in-memory form filters and sorts its map; the
        durable form scans a key range and skips reserved keys. */
    method Keys(prefix: Key) returns (out: seq<Key>)
      ensures out == if closed then [] else Sorted(Selected(data, durable, prefix))
    {
      if closed {
        return [];
      }
      out := [];
      if !durable {
        var todo := data.Keys;
        while todo != {}
          invariant todo <= data.Keys && Ascending(out)
          invariant forall k :: k in out <==> k in data && k !in todo && HasPrefix(k, prefix)
          decreases |todo|
        {
          var k :| k in todo;
          if HasPrefix(k, prefix) {
            InsertAscending(k, out);
            out := Insert(k, out);
          }
          todo := todo - {k};
        }
      } else {
        var upper := None;
        if prefix != [] {
          upper := PrefixUpperBound(prefix);
        }
        var it := Iterate(prefix, upper);
        forall k ensures k in it <==> k in data && HasPrefix(k, prefix) {
          if prefix != [] {
            RangeIsPrefix(k, prefix);
          } else {
            assert k[..0] == [] && AtMost([], k);
          }
        }
        for i := 0 to |it|
          invariant Ascending(out)
          invariant forall k :: k in out <==> k in it[..i] && !HasPrefix(k, [0])
        {
          if HasPrefix(it[i], [0]) {
            continue;
          }
          forall k | k in out ensures Less(k, it[i]) {
            var j :| 0 <= j < i && it[j] == k;
          }
          out := out + [it[i]];
        }
        assert it[..|it|] == it;
      }
      AscendingUnique(out, Sorted(Selected(data, durable, prefix)));
    }
  }
}
