/** The policy table, and reads and writes across the tiers as functions on values. */
module Tiers {
  import opened Lex
  import opened Options
  import opened Stores
  import opened Scratches
  import opened WriteBack

  // ----- policy -----

  datatype ReadMode = CascadeCached | CascadeFresh | LocalOnly | RemoteOnly
  datatype WriteMode = WriteAround | BackWrite | WriteThrough | RemoteAuthoritative
  datatype Authority = AuthLocal | AuthRemote

  datatype Class = Class(read: ReadMode, write: WriteMode, authority: Authority, ttl: int)

  datatype Hint = Hint(forceFresh: bool, ephemeral: bool, durable: bool)

  const COLON: byte := 58

  /** The part of a key before its first ':'. */
  function NamespaceOf(key: Key): (ns: Key)
    ensures COLON !in ns && (ns == key || HasPrefix(key, ns + [COLON]))
  {
    if key == [] || key[0] == COLON then []
    else
      var rest := NamespaceOf(key[1..]);
      assert rest != key[1..] ==> key[..1 + |rest| + 1] == [key[0]] + key[1..][..|rest| + 1];
      [key[0]] + rest
  }

  datatype Policy = Policy(classes: map<Key, Class>, default: Class) {
    function ClassFor(key: Key): Class {
      if NamespaceOf(key) in classes then classes[NamespaceOf(key)] else default
    }

    /** A hint overrides the namespace's class, which overrides the default. */
    function Resolve(key: Key, hint: Option<Hint>): Class {
      var c := ClassFor(key);
      if hint.None? then c
      else
        var h := hint.value;
        var c1 := if h.forceFresh && c.read != RemoteOnly then c.(read := CascadeFresh) else c;
        if h.ephemeral then c1.(write := WriteAround)
        else if h.durable && c1.write == WriteAround then c1.(write := BackWrite)
        else c1
    }
  }

  // ----- the tiers as a value -----

  /** What the scratch tier holds: a value, or the memory of a remote miss. */
  datatype Cached = Json(raw: Raw) | Tombstone

  /** `user` is the local store without its journal; a closed store reads as empty. */
  datatype Memory = Memory(
    items: seq<Item<Cached>>, cap: nat, user: map<Key, Raw>, closed: bool, remote: map<Key, Raw>, healthy: bool)

  datatype Answer = Hit(raw: Raw, from: Origin, current: bool, confidence: real) | Miss | RemoteError
  datatype Origin = FromScratch | FromLocal | FromRemote

  /** "\x00neg:" */
  const NEG_PREFIX: Key := [0, 110, 101, 103, 58]

  function NegKey(key: Key): Key {
    NEG_PREFIX + key
  }

  function Expiry(ttl: int, now: Time): Option<Time> {
    if ttl > 0 then Some(now + ttl) else None
  }

  function Cache(m: Memory, key: Key, v: Cached, ttl: int, now: Time): Memory {
    m.(items := SetItem(m.items, m.cap, Item(key, v, Expiry(ttl, now))))
  }

  function UserGet(m: Memory, key: Key): Option<Raw> {
    if !m.closed && key in m.user then Some(m.user[key]) else None
  }

  function Confidence(current: bool): real {
    if current then 1.0 else 0.6
  }

  /** Scratch, then local with promotion. */
  function GetCached(m: Memory, key: Key, c: Class, now: Time): (Memory, Answer) {
    var v := GetValue(m.items, key, now);
    var m1 := m.(items := GetItems(m.items, key, now));
    if v.Some? && v.value.Json? then (m1, Hit(v.value.raw, FromScratch, false, 0.8))
    else
      var u := UserGet(m, key);
      if u.Some? then
        var current := c.authority.AuthLocal?;
        (Cache(m1, key, Json(u.value), c.ttl, now), Hit(u.value, FromLocal, current, Confidence(current)))
      else (m1, Miss)
  }

  /** Remote, promoting a hit into local and scratch and remembering a miss. */
  function GetRemote(m: Memory, key: Key, c: Class, now: Time, reply: Reply): (Memory, Answer) {
    if !m.healthy then (m, Miss)
    else if !reply.Ok? then (m, RemoteError)
    else if key !in m.remote then
      (if c.ttl > 0 then Cache(m, NegKey(key), Tombstone, c.ttl, now) else m, Miss)
    else
      var raw := m.remote[key];
      var m1 := if m.closed then m else m.(user := m.user[key := raw]);
      (Cache(m1, key, Json(raw), c.ttl, now), Hit(raw, FromRemote, true, 1.0))
  }

  function GetCascade(m: Memory, key: Key, c: Class, now: Time, reply: Reply, bypass: bool): (Memory, Answer) {
    if bypass then
      var (m1, a) := GetRemote(m, key, c, now, reply);
      if a.Miss? then GetCached(m1, key, c, now) else (m1, a)
    else
      var negative := GetValue(m.items, NegKey(key), now);
      var m0 := m.(items := GetItems(m.items, NegKey(key), now));
      if negative.Some? then (m0, Miss)
      else
        var (m1, a) := GetCached(m0, key, c, now);
        if a.Hit? then (m1, a) else GetRemote(m1, key, c, now, reply)
  }

  /** What a write-back put does to the tiers above the journal. */
  function PutBack(m: Memory, key: Key, val: Raw, ttl: int, now: Time): Memory {
    if m.closed then m else Cache(m.(user := m.user[key := val]), key, Json(val), ttl, now)
  }

  // ----- coherence of scratch with local -----

  /** What scratch holds for `key`, expired or not, is the local value. */
  predicate Coherent(m: Memory, key: Key) {
    Has(m.items, key) ==> key in m.user && m.items[Find(m.items, key)].val == Json(m.user[key])
  }

  /** The item found for `k`, if any. */
  function Lookup(items: seq<Item<Cached>>, k: Key): Option<Item<Cached>> {
    if Has(items, k) then Some(items[Find(items, k)]) else None
  }

  lemma {:induction false} FindWithout(items: seq<Item<Cached>>, i: nat, k: Key)
    requires i < |items| && items[i].key != k
    ensures Lookup(Without(items, i), k) == Lookup(items, k)
  {
    hide Lookup;
    FindFront(items[0], items[1..], k);
    assert items == [items[0]] + items[1..];
    if i == 0 {
      assert Without(items, 0) == items[1..];
    } else {
      FindWithout(items[1..], i - 1, k);
      assert Without(items, i) == [items[0]] + Without(items[1..], i - 1);
      FindFront(items[0], Without(items[1..], i - 1), k);
    }
  }

  lemma FindFront(e: Item<Cached>, items: seq<Item<Cached>>, k: Key)
    ensures Lookup([e] + items, k) == if e.key == k then Some(e) else Lookup(items, k)
  {
    assert ([e] + items)[1..] == items;
  }

  lemma {:induction false} FindInit(items: seq<Item<Cached>>, k: Key)
    requires items != []
    ensures Lookup(items[..|items| - 1], k) == None || Lookup(items[..|items| - 1], k) == Lookup(items, k)
  {
    var init := items[..|items| - 1];
    if Has(init, k) {
      var i := Find(init, k);
      FindAt(items, i, k);
    }
  }

  lemma {:induction false} FindAt(items: seq<Item<Cached>>, i: nat, k: Key)
    requires i < |items| && items[i].key == k && forall j :: 0 <= j < i ==> items[j].key != k
    ensures Find(items, k) == i
  {
  }

  /** Setting one key changes no other key's item, except that it may evict it. */
  lemma LookupAfterSet(items: seq<Item<Cached>>, cap: nat, e: Item<Cached>, k: Key)
    requires cap >= 1
    ensures var l := Lookup(SetItem(items, cap, e), k);
            if k == e.key then l == Some(e) else l == None || l == Lookup(items, k)
  {
    var i := Find(items, e.key);
    if i < |items| {
      FindFront(e, Without(items, i), k);
      if k != e.key {
        FindWithout(items, i, k);
      }
    } else {
      FindFront(e, items, k);
      if |items| + 1 > cap && items != [] {
        FindInit([e] + items, k);
        assert ([e] + items)[..|items|] == [e] + items[..|items| - 1];
        FindFront(e, items[..|items| - 1], k);
      }
    }
  }

  lemma LookupAfterGet(items: seq<Item<Cached>>, key: Key, now: Time, k: Key)
    ensures var l := Lookup(GetItems(items, key, now), k); l == None || l == Lookup(items, k) || k == key
    ensures k == key && DistinctKeys(items) ==>
              var l := Lookup(GetItems(items, key, now), k); l == None || l == Lookup(items, k)
  {
    var i := Find(items, key);
    if i < |items| {
      if k != key {
        FindWithout(items, i, k);
      }
      FindFront(items[i], Without(items, i), k);
      if k == key && DistinctKeys(items) {
        DistinctWithout(items, i);
      }
    }
  }

  lemma DistinctWithout(items: seq<Item<Cached>>, i: nat)
    requires DistinctKeys(items) && i < |items|
    ensures DistinctKeys(Without(items, i)) && !Has(Without(items, i), items[i].key)
    ensures DistinctKeys([items[i]] + Without(items, i))
  {
    var w := Without(items, i);
    assert forall j :: 0 <= j < |w| ==> w[j] == items[if j < i then j else j + 1];
  }

  lemma DistinctAfterSet(items: seq<Item<Cached>>, cap: nat, e: Item<Cached>)
    requires DistinctKeys(items)
    ensures DistinctKeys(SetItem(items, cap, e))
  {
    var i := Find(items, e.key);
    if i < |items| {
      DistinctWithout(items, i);
    }
  }

  lemma DistinctAfterGet(items: seq<Item<Cached>>, key: Key, now: Time)
    requires DistinctKeys(items)
    ensures DistinctKeys(GetItems(items, key, now))
  {
    var i := Find(items, key);
    if i < |items| {
      DistinctWithout(items, i);
    }
  }

  /** Keys that start with byte 0 are the managers' own. */
  predicate Reserved(key: Key) {
    key != [] && key[0] == 0
  }

  /** Scratch agrees with local on every user key. */
  ghost predicate AllCoherent(m: Memory) {
    m.cap >= 1 && DistinctKeys(m.items) && forall k :: !Reserved(k) ==> Coherent(m, k)
  }

  lemma CacheKeeps(m: Memory, key: Key, v: Cached, ttl: int, now: Time)
    requires m.cap >= 1 && DistinctKeys(m.items)
    requires forall k :: !Reserved(k) && k != key ==> Coherent(m, k)
    requires Reserved(key) || (key in m.user && v == Json(m.user[key]))
    ensures AllCoherent(Cache(m, key, v, ttl, now))
  {
    var e := Item(key, v, Expiry(ttl, now));
    DistinctAfterSet(m.items, m.cap, e);
    forall k | !Reserved(k) ensures Coherent(Cache(m, key, v, ttl, now), k) {
      LookupAfterSet(m.items, m.cap, e, k);
    }
  }

  lemma TouchKeeps(m: Memory, key: Key, now: Time)
    requires AllCoherent(m)
    ensures AllCoherent(m.(items := GetItems(m.items, key, now)))
  {
    DistinctAfterGet(m.items, key, now);
    forall k | !Reserved(k) ensures Coherent(m.(items := GetItems(m.items, key, now)), k) {
      LookupAfterGet(m.items, key, now, k);
    }
  }

  lemma GetCachedKeeps(m: Memory, key: Key, c: Class, now: Time)
    requires AllCoherent(m) && !Reserved(key)
    ensures AllCoherent(GetCached(m, key, c, now).0) && GetCached(m, key, c, now).0.user == m.user
    ensures !m.closed && key in m.user ==>
              GetCached(m, key, c, now).1.Hit? && GetCached(m, key, c, now).1.raw == m.user[key]
  {
    hide AllCoherent, GetItems, SetItem;
    TouchKeeps(m, key, now);
    var m1 := m.(items := GetItems(m.items, key, now));
    CoherentKey(m, key);
    ValueIsLookup(m.items, key, now);
    if UserGet(m1, key).Some? {
      CoherentParts(m1);
      CacheKeeps(m1, key, Json(UserGet(m1, key).value), c.ttl, now);
    }
  }

  lemma CoherentKey(m: Memory, key: Key)
    requires AllCoherent(m) && !Reserved(key)
    ensures Coherent(m, key)
  {
  }

  lemma CoherentParts(m: Memory)
    requires AllCoherent(m)
    ensures m.cap >= 1 && DistinctKeys(m.items) && forall k :: !Reserved(k) ==> Coherent(m, k)
  {
  }

  lemma ValueIsLookup(items: seq<Item<Cached>>, key: Key, now: Time)
    ensures GetValue(items, key, now).Some?
      ==> Has(items, key) && GetValue(items, key, now).value == items[Find(items, key)].val
  {
  }

  lemma GetRemoteKeeps(m: Memory, key: Key, c: Class, now: Time, reply: Reply)
    requires AllCoherent(m) && !m.closed && !Reserved(key)
    ensures AllCoherent(GetRemote(m, key, c, now, reply).0)
    ensures var user := GetRemote(m, key, c, now, reply).0.user;
            forall k :: k != key ==> (k in user <==> k in m.user) && (k in m.user ==> user[k] == m.user[k])
  {
    CoherentParts(m);
    if m.healthy && reply.Ok? {
      if key !in m.remote {
        assert Reserved(NegKey(key));
        CacheKeeps(m, NegKey(key), Tombstone, c.ttl, now);
      } else {
        var m1 := m.(user := m.user[key := m.remote[key]]);
        CacheKeeps(m1, key, Json(m.remote[key]), c.ttl, now);
      }
    }
  }

  // ----- runs of plain reads and writes -----

  /** Operations on keys that are read cached and written back, without hints; and whatever else
      happens to the remote. */
  datatype MemOp =
    | PutOp(key: Key, val: Raw, ttl: int, now: Time)
    | GetOp(key: Key, c: Class, now: Time, reply: Reply)
    | World(remote: map<Key, Raw>, healthy: bool)

  function Do(m: Memory, op: MemOp): Memory {
    match op
    case PutOp(k, v, ttl, now) => PutBack(m, k, v, ttl, now)
    case GetOp(k, c, now, reply) => GetCascade(m, k, c, now, reply, false).0
    case World(remote, healthy) => m.(remote := remote, healthy := healthy)
  }

  function DoAll(m: Memory, ops: seq<MemOp>): Memory {
    if ops == [] then m else Do(DoAll(m, ops[..|ops| - 1]), ops[|ops| - 1])
  }

  predicate PlainOp(op: MemOp) {
    op.World? || !Reserved(op.key)
  }

  /** No live memory of a remote miss hides `key`. */
  predicate Unhidden(m: Memory, key: Key, now: Time) {
    GetValue(m.items, NegKey(key), now).None?
  }

  lemma CascadeKeeps(m: Memory, key: Key, c: Class, now: Time, reply: Reply)
    requires AllCoherent(m) && !m.closed && !Reserved(key)
    ensures var (m', a) := GetCascade(m, key, c, now, reply, false);
            && AllCoherent(m') && !m'.closed
            && (forall k :: k in m.user ==> k in m'.user && m'.user[k] == m.user[k])
            && (key in m.user ==>
                  if Unhidden(m, key, now) then a.Hit? && a.raw == m.user[key] else a.Miss?)
  {
    hide AllCoherent, GetItems, GetCached, GetRemote, Coherent;
    TouchKeeps(m, NegKey(key), now);
    var m0 := m.(items := GetItems(m.items, NegKey(key), now));
    if Unhidden(m, key, now) {
      GetCachedKeeps(m0, key, c, now);
      CachedStays(m0, key, c, now);
      var (m1, a) := GetCached(m0, key, c, now);
      if !a.Hit? {
        GetRemoteKeeps(m1, key, c, now, reply);
        RemoteStays(m1, key, c, now, reply);
      }
    }
  }

  lemma CachedStays(m: Memory, key: Key, c: Class, now: Time)
    ensures GetCached(m, key, c, now).0.closed == m.closed
  {
  }

  lemma RemoteStays(m: Memory, key: Key, c: Class, now: Time, reply: Reply)
    ensures GetRemote(m, key, c, now, reply).0.closed == m.closed
  {
  }

  lemma PutKeeps(m: Memory, key: Key, val: Raw, ttl: int, now: Time)
    requires AllCoherent(m) && !m.closed && !Reserved(key)
    ensures var m' := PutBack(m, key, val, ttl, now);
            AllCoherent(m') && !m'.closed && m'.user == m.user[key := val]
  {
    CacheKeeps(m.(user := m.user[key := val]), key, Json(val), ttl, now);
  }

  /** The value of the last put of `k` in a run. */
  function LastPut(ops: seq<MemOp>, k: Key): Option<Raw> {
    if ops == [] then None
    else
      var op := ops[|ops| - 1];
      if op.PutOp? && op.key == k then Some(op.val) else LastPut(ops[..|ops| - 1], k)
  }

  /** Tier coherence: in any run of plain operations scratch never disagrees with local, and local holds
      the last put value of every key, or what it held before if the key was not put. */
  lemma {:induction false} RunCoherent(m: Memory, ops: seq<MemOp>, k: Key)
    requires AllCoherent(m) && !m.closed
    requires forall i :: 0 <= i < |ops| ==> PlainOp(ops[i])
    ensures var m' := DoAll(m, ops); AllCoherent(m') && !m'.closed
    ensures var user, last := DoAll(m, ops).user, LastPut(ops, k);
            if last.Some? then k in user && user[k] == last.value
            else k in m.user ==> k in user && user[k] == m.user[k]
    decreases |ops|
  {
    hide AllCoherent, PutBack, GetCascade;
    if ops != [] {
      var init, op := ops[..|ops| - 1], ops[|ops| - 1];
      RunCoherent(m, init, k);
      var m1 := DoAll(m, init);
      match op
      case PutOp(key, val, ttl, now) => PutKeeps(m1, key, val, ttl, now);
      case GetOp(key, c, now, reply) => CascadeKeeps(m1, key, c, now, reply);
      case World(remote, healthy) => WorldKeeps(m1, remote, healthy);
    }
  }

  lemma WorldKeeps(m: Memory, remote: map<Key, Raw>, healthy: bool)
    requires AllCoherent(m)
    ensures AllCoherent(m.(remote := remote, healthy := healthy))
  {
  }

  /** After any run of plain operations, evictions and expiries, a read of a key that was put returns the
      value last put exactly if no live memory of a remote miss hides the key; otherwise it misses. */
  lemma ReadsLastPut(m: Memory, ops: seq<MemOp>, k: Key, c: Class, now: Time, reply: Reply)
    requires AllCoherent(m) && !m.closed && !Reserved(k)
    requires (forall i :: 0 <= i < |ops| ==> PlainOp(ops[i])) && LastPut(ops, k).Some?
    ensures var m' := DoAll(m, ops);
            var a := GetCascade(m', k, c, now, reply, false).1;
            if Unhidden(m', k, now) then a.Hit? && a.raw == LastPut(ops, k).value else a.Miss?
  {
    hide AllCoherent, GetCascade, Unhidden, PlainOp, LastPut, DoAll;
    RunCoherent(m, ops, k);
    CascadeKeeps(DoAll(m, ops), k, c, now, reply);
  }

  /** A record is called fresh exactly if its confidence is full: always from the remote, never from
      scratch, and from local if local is the authority. */
  lemma RecordsGraded(m: Memory, key: Key, c: Class, now: Time, reply: Reply, bypass: bool)
    ensures var a := GetCascade(m, key, c, now, reply, bypass).1;
            a.Hit? ==>
              && (a.current <==> a.confidence == 1.0)
              && a.current == (a.from.FromRemote? || (a.from.FromLocal? && c.authority.AuthLocal?))
  {
    hide GetItems, GetValue, SetItem;
  }

  /** A put does not lift the memory of an earlier miss: read, put, read misses twice. */
  lemma PutLeavesTombstone(k: Key, v: Raw, c: Class, now: Time)
    requires !Reserved(k) && c.ttl > 0
    ensures var m0 := Memory([], 64, map[], false, map[], true);
            var m1 := GetCascade(m0, k, c, now, Ok, false).0;
            var m2 := PutBack(m1, k, v, c.ttl, now);
            !Unhidden(m2, k, now) && GetCascade(m2, k, c, now, Ok, false).1 == Miss
  {
    var m0 := Memory([], 64, map[], false, map[], true);
    var m1 := GetCascade(m0, k, c, now, Ok, false).0;
    assert m1.items == [Item(NegKey(k), Tombstone, Some(now + c.ttl))];
    var m2 := PutBack(m1, k, v, c.ttl, now);
    assert NegKey(k)[0] == 0;
    assert m2.items == [Item(k, Json(v), Some(now + c.ttl)), Item(NegKey(k), Tombstone, Some(now + c.ttl))];
    assert Find(m2.items, NegKey(k)) == 1;
  }

  // ----- what resolution and promotion mean -----

  /** A hint changes how a key is read only to make it fresher, never for keys that are read remotely only; and
      how it is written only to keep an ephemeral write in scratch, or a durable one out of it alone. */
  lemma HintsMean(p: Policy, key: Key, hint: Option<Hint>)
    ensures var c, r := p.Resolve(key, None), p.Resolve(key, hint);
            && r.authority == c.authority && r.ttl == c.ttl
            && (hint.None? ==> r == c)
            && (r.read != c.read ==> hint.Some? && hint.value.forceFresh && r.read == CascadeFresh)
            && (hint.Some? && hint.value.forceFresh ==> r.read == CascadeFresh || (c.read == r.read == RemoteOnly))
            && (r.write != c.write ==>
                  && hint.Some?
                  && if hint.value.ephemeral then r.write == WriteAround
                     else hint.value.durable && c.write == WriteAround && r.write == BackWrite)
            && (hint.Some? && hint.value.ephemeral ==> r.write == WriteAround)
            && (hint.Some? && hint.value.durable && !hint.value.ephemeral ==> r.write != WriteAround)
  {
  }

  /** Keys of one namespace share a class, and it wins over the default. */
  lemma NamespaceDecides(p: Policy, ns: Key, rest: Key, c: Class)
    requires COLON !in ns && ns in p.classes && p.classes[ns] == c
    ensures p.Resolve(ns + [COLON] + rest, None) == c && p.Resolve(ns, None) == c
  {
    NamespaceSplits(ns, rest);
  }

  lemma {:induction false} NamespaceSplits(ns: Key, rest: Key)
    requires COLON !in ns
    ensures NamespaceOf(ns + [COLON] + rest) == ns && NamespaceOf(ns) == ns
  {
    if ns != [] {
      assert (ns + [COLON] + rest)[1..] == ns[1..] + [COLON] + rest;
      assert ns == [ns[0]] + ns[1..];
      NamespaceSplits(ns[1..], rest);
    } else {
      assert (ns + [COLON] + rest)[0] == COLON;
    }
  }

  /** A key that only the remote holds: the read returns the remote's value, fresh and with full confidence, and
      brings it down, so that the next read finds it although the remote is gone. */
  lemma RemoteHitComesDown(m: Memory, key: Key, c: Class, now: Time, later: Time)
    requires AllCoherent(m) && !m.closed && !Reserved(key)
    requires m.healthy && key in m.remote && key !in m.user && Unhidden(m, key, now)
    ensures var (m1, a) := GetCascade(m, key, c, now, Ok, false);
            && a == Hit(m.remote[key], FromRemote, true, 1.0)
            && m1.user == m.user[key := m.remote[key]]
            && (Unhidden(m1, key, later) ==>
                  var b := GetCascade(m1.(healthy := false), key, c, later, Failed, false).1;
                  b.Hit? && b.raw == m.remote[key])
  {
    hide AllCoherent, GetItems, SetItem, GetValue;
    var m0 := m.(items := GetItems(m.items, NegKey(key), now));
    TouchKeeps(m, NegKey(key), now);
    NotCached(m0, key, c, now);
    CascadeKeeps(m, key, c, now, Ok);
    var m1 := GetCascade(m, key, c, now, Ok, false).0;
    WorldKeeps(m1, m1.remote, false);
    CascadeKeeps(m1.(healthy := false), key, c, later, Failed);
  }

  lemma NotCached(m: Memory, key: Key, c: Class, now: Time)
    requires AllCoherent(m) && !Reserved(key) && key !in m.user
    ensures GetCached(m, key, c, now) == (m.(items := GetItems(m.items, key, now)), Miss)
  {
    CoherentKey(m, key);
    hide AllCoherent, GetItems, SetItem;
  }

  /** A value found locally is brought into scratch, for the class's time to live. */
  lemma LocalHitComesUp(m: Memory, key: Key, c: Class, now: Time)
    requires AllCoherent(m) && !m.closed && !Reserved(key) && key in m.user && GetValue(m.items, key, now).None?
    ensures var (m1, a) := GetCached(m, key, c, now);
            && a.Hit? && a.from == FromLocal && a.raw == m.user[key]
            && Lookup(m1.items, key) == Some(Item(key, Json(m.user[key]), Expiry(c.ttl, now)))
  {
    CoherentParts(m);
    hide AllCoherent, GetItems, GetValue, SetItem;
    LookupAfterSet(GetItems(m.items, key, now), m.cap, Item(key, Json(m.user[key]), Expiry(c.ttl, now)), key);
  }

  /** A remote miss is remembered for the class's time to live, and no longer. */
  lemma MissIsRemembered(m: Memory, key: Key, c: Class, now: Time, later: Time)
    requires AllCoherent(m) && m.healthy && key !in m.remote
    ensures var (m1, a) := GetRemote(m, key, c, now, Ok);
            && a == Miss
            && (c.ttl > 0 ==> (Unhidden(m1, key, later) <==> later >= now + c.ttl))
            && (c.ttl <= 0 ==> m1 == m)
  {
    CoherentParts(m);
    hide AllCoherent, SetItem;
    if c.ttl > 0 {
      var e := Item(NegKey(key), Tombstone, Some(now + c.ttl));
      LookupAfterSet(m.items, m.cap, e, NegKey(key));
      ValueOfLookup(SetItem(m.items, m.cap, e), NegKey(key), later);
    }
  }

  lemma ValueOfLookup(items: seq<Item<Cached>>, key: Key, now: Time)
    ensures var l := Lookup(items, key);
            GetValue(items, key, now) ==
            if l.None? || (l.value.expiry.Some? && now >= l.value.expiry.value) then None else Some(l.value.val)
  {
  }

  /** A fresh read asks the remote first, whatever is cached or remembered as missing, and falls back on the
      caches only when the remote is unhealthy or does not have the key. */
  lemma FreshReadsRemote(m: Memory, key: Key, c: Class, now: Time, reply: Reply)
    requires AllCoherent(m) && !m.closed && !Reserved(key)
    ensures var a := GetCascade(m, key, c, now, reply, true).1;
            if m.healthy && !reply.Ok? then a == RemoteError
            else if m.healthy && key in m.remote then a == Hit(m.remote[key], FromRemote, true, 1.0)
            else if key in m.user then a.Hit? && a.raw == m.user[key]
            else a == Miss
  {
    hide AllCoherent, GetItems, SetItem;
    GetRemoteKeeps(m, key, c, now, reply);
    var (m1, a) := GetRemote(m, key, c, now, reply);
    if a.Miss? {
      GetCachedKeeps(m1, key, c, now);
      if key !in m1.user {
        NotCached(m1, key, c, now);
      }
    }
  }
}
