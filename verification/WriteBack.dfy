/** The write-back journal as a protocol of small steps: one writer, one flusher, crashes between
    any two writes to the store, and recovery. A crash loses the manager and keeps the store: the state is
    that of an in-memory store object that outlives the manager, since that form has no disk behind it.
    The durable form, whose recovery sees no entries, is treated in `DurableRestart`. */
module WriteBack {
  import opened Lex
  import opened Options
  import opened Stores
  import opened JournalKeys

  /** Where the writer is inside `Put`. */
  datatype Writer =
    | Resting
    | Stored(key: Key, val: Raw)
    | Claimed(key: Key, val: Raw, jk: Key, stale: Option<Key>)
    | Journaled(key: Key, val: Raw, jk: Key, stale: Option<Key>)

  /** Where the flusher is inside `Flush`; `todo` is the rest of its snapshot of journal keys. */
  datatype Flusher =
    | Asleep
    | Sending(todo: seq<Key>)
    | Holding(jk: Key, key: Key, val: Raw, todo: seq<Key>)
    | Acked(jk: Key, key: Key, val: Raw, todo: seq<Key>)
    | Dropped(jk: Key, key: Key, todo: seq<Key>)

  /** `local`, `index`, `seqNo` and `remote` are the program's; the last four record history:
      the last value journaled and the last value completely put for each key, the keys whose
      last journaled `Put` was cut off by a crash, and those whose last stored value was. */
  datatype State = State(
    local: map<Key, Raw>,
    index: map<Key, Key>,
    seqNo: nat,
    remote: map<Key, Raw>,
    writer: Writer,
    flusher: Flusher,
    latest: map<Key, Raw>,
    completed: map<Key, Raw>,
    torn: set<Key>,
    unjournaled: set<Key>)

  datatype Reply = Ok | Failed | FailedButApplied

  datatype Action =
    | Store(key: Key, val: Raw)
    | Claim
    | WriteEntry
    | Compact
    | FlushStart
    | ReadEntry
    | Send(reply: Reply)
    | DropEntry
    | Unindex
    | FlushEnd
    | Crash

  predicate IsJournal(k: Key) {
    HasPrefix(k, JOURNAL_PREFIX)
  }

  function Lookup(index: map<Key, Key>, k: Key): Option<Key> {
    if k in index then Some(index[k]) else None
  }

  ghost function Pending(local: map<Key, Raw>): set<Key> {
    Selected(local, false, JOURNAL_PREFIX)
  }

  // ----- recovery -----

  /** The highest sequence number among the listed keys, at least `floor`. */
  function MaxSeq(ks: seq<Key>, floor: nat): (n: nat)
    ensures n >= floor && forall k :: k in ks ==> SeqOf(k) <= n
  {
    if ks == [] then floor
    else
      var n := MaxSeq(ks[..|ks| - 1], floor);
      var k := ks[|ks| - 1];
      assert ks == ks[..|ks| - 1] + [k];
      if SeqOf(k) > n then SeqOf(k) else n
  }

  /** The by-key index rebuilt from the listed entries; later entries win. */
  function Reindex(local: map<Key, Raw>, ks: seq<Key>): (index: map<Key, Key>)
    ensures forall k :: k in index ==>
              index[k] in ks && index[k] in local && local[index[k]].Entry? && local[index[k]].key == k
  {
    if ks == [] then map[]
    else
      var rest, jk := Reindex(local, ks[..|ks| - 1]), ks[|ks| - 1];
      assert ks == ks[..|ks| - 1] + [jk];
      if jk in local && local[jk].Entry? then rest[local[jk].key := jk] else rest
  }

  // ----- the steps -----

  ghost predicate Enabled(s: State, a: Action) {
    match a
    case Store(key, _) => s.writer.Resting? && !IsJournal(key)
    case Claim => s.writer.Stored? && s.seqNo < MAX_SEQ
    case WriteEntry => s.writer.Claimed?
    case Compact => s.writer.Journaled?
    case FlushStart => s.flusher.Asleep?
    case ReadEntry => s.flusher.Sending? && s.flusher.todo != []
    case Send(_) => s.flusher.Holding?
    case DropEntry => s.flusher.Acked?
    case Unindex => s.flusher.Dropped?
    case FlushEnd => s.flusher.Sending? && s.flusher.todo == []
    case Crash => true
  }

  ghost function Step(s: State, a: Action): State
    requires Enabled(s, a)
  {
    match a
    case Store(key, val) =>
      s.(local := s.local[key := val], writer := Stored(key, val))
    case Claim =>
      var k, v, jk := s.writer.key, s.writer.val, JournalKey(s.seqNo + 1);
      s.(seqNo := s.seqNo + 1, index := s.index[k := jk], writer := Claimed(k, v, jk, Lookup(s.index, k)))
    case WriteEntry =>
      var w := s.writer;
      s.(local := s.local[w.jk := Entry(w.key, w.val)],
         latest := s.latest[w.key := w.val],
         unjournaled := s.unjournaled - {w.key},
         writer := Journaled(w.key, w.val, w.jk, w.stale))
    case Compact =>
      var w := s.writer;
      s.(local := if w.stale.Some? then s.local - {w.stale.value} else s.local,
         completed := s.completed[w.key := w.val],
         torn := s.torn - {w.key},
         writer := Resting)
    case FlushStart =>
      s.(flusher := Sending(Sorted(Pending(s.local))))
    case ReadEntry =>
      var jk, rest := s.flusher.todo[0], s.flusher.todo[1..];
      if jk in s.local && s.local[jk].Entry? then
        s.(flusher := Holding(jk, s.local[jk].key, s.local[jk].val, rest))
      else
        s.(local := s.local - {jk}, flusher := Sending(rest))
    case Send(reply) =>
      var f := s.flusher;
      s.(remote := if reply.Failed? then s.remote else s.remote[f.key := f.val],
         flusher := if reply.Ok? then Acked(f.jk, f.key, f.val, f.todo) else Asleep)
    case DropEntry =>
      var f := s.flusher;
      s.(local := s.local - {f.jk}, flusher := Dropped(f.jk, f.key, f.todo))
    case Unindex =>
      var f := s.flusher;
      s.(index := if Lookup(s.index, f.key) == Some(f.jk) then s.index - {f.key} else s.index,
         flusher := Sending(f.todo))
    case FlushEnd =>
      s.(flusher := Asleep)
    case Crash =>
      var ks := Sorted(Pending(s.local));
      s.(index := Reindex(s.local, ks), seqNo := MaxSeq(ks, 0),
         torn := if s.writer.Journaled? then s.torn + {s.writer.key} else s.torn,
         unjournaled := if s.writer.Stored? || s.writer.Claimed? then s.unjournaled + {s.writer.key} else s.unjournaled,
         writer := Resting, flusher := Asleep)
  }

  // ----- the inductive invariant -----

  type Table = map<Key, Raw>

  /** A journal key with a number handed out already. */
  ghost predicate Numbered(seqNo: nat, jk: Key) {
    exists n: nat :: n <= seqNo && jk == JournalKey(n)
  }

  /** `jk` is a pending entry of the user key `k`. */
  predicate IsEntryOf(local: Table, k: Key, jk: Key) {
    jk in local && IsJournal(jk) && local[jk].Entry? && local[jk].key == k
  }

  /** `jk` is the newest pending entry of `k`. */
  ghost predicate Newest(local: Table, k: Key, jk: Key) {
    && IsEntryOf(local, k, jk)
    && forall j :: IsEntryOf(local, k, j) ==> AtMost(j, jk)
  }

  /** Every pending key is an entry of a journaled user key, and numbered. */
  ghost predicate GoodPending(local: Table, seqNo: nat, latest: Table) {
    && seqNo <= MAX_SEQ
    && (forall jk :: jk in local && IsJournal(jk) ==>
          local[jk].Entry? && local[jk].key in latest && Numbered(seqNo, jk))
    && (forall k :: k in latest ==> !IsJournal(k))
  }

  /** The newest pending entry of a key, or failing that the remote, holds its last journaled value. */
  ghost predicate Safe(local: Table, latest: Table, remote: Table, k: Key)
    requires k in latest
  {
    && (forall jk :: Newest(local, k, jk) ==> local[jk].val == latest[k])
    && ((forall jk :: !IsEntryOf(local, k, jk)) ==> k in remote && remote[k] == latest[k])
  }

  ghost predicate AllSafe(local: Table, latest: Table, remote: Table) {
    forall k :: k in latest ==> Safe(local, latest, remote, k)
  }

  /** An indexed or superseded key is numbered and, if pending, belongs to `k`. */
  ghost predicate GoodStale(local: Table, seqNo: nat, k: Key, jk: Key) {
    Numbered(seqNo, jk) && (jk in local ==> IsEntryOf(local, k, jk))
  }

  ghost predicate GoodIndex(local: Table, seqNo: nat, index: map<Key, Key>) {
    forall k :: k in index ==> GoodStale(local, seqNo, k, index[k])
  }

  /** The user value is in the local tier before it is journaled. */
  predicate Holds(local: Table, k: Key, v: Raw) {
    !IsJournal(k) && k in local && local[k] == v
  }

  ghost predicate GoodWriter(local: Table, seqNo: nat, index: map<Key, Key>, latest: Table, w: Writer) {
    match w
    case Resting => true
    case Stored(k, v) => Holds(local, k, v)
    case Claimed(k, v, jk, stale) =>
      && Holds(local, k, v) && jk == JournalKey(seqNo) && jk !in local
      && (stale.Some? ==> GoodStale(local, seqNo, k, stale.value) && Less(stale.value, jk))
      && (forall k' :: k' in index && index[k'] == jk ==> k' == k)
    case Journaled(k, v, jk, stale) =>
      && Holds(local, k, v) && k in latest && latest[k] == v
      && (stale.Some? ==> GoodStale(local, seqNo, k, stale.value) && Less(stale.value, jk))
      && (stale.Some? && stale.value in local ==> IsEntryOf(local, k, jk))
  }

  /** The keys the flusher has still to deal with, the one in hand first. */
  function Work(f: Flusher): seq<Key> {
    match f
    case Asleep => []
    case Sending(todo) => todo
    case Holding(jk, _, _, todo) => [jk] + todo
    case Acked(jk, _, _, todo) => [jk] + todo
    case Dropped(_, _, todo) => todo
  }

  /** The work list ascends, and everything pending is on it or newer than all of it; so no entry
      older than the one in hand is left. */
  ghost predicate GoodWork(local: Table, seqNo: nat, w: Writer, work: seq<Key>) {
    && Ascending(work)
    && (forall t :: t in work ==> Numbered(seqNo, t) && (w.Claimed? ==> Less(t, w.jk)))
    && (forall j, t :: j in local && IsJournal(j) && t in work ==> j in work || Less(t, j))
  }

  ghost predicate GoodFlusher(local: Table, remote: Table, f: Flusher) {
    match f
    case Holding(jk, k, v, _) =>
      && (jk in local ==> local[jk] == Entry(k, v))
      && exists j :: IsEntryOf(local, k, j)
    case Acked(jk, k, v, _) =>
      && (jk in local ==> local[jk] == Entry(k, v))
      && k in remote && remote[k] == v
    case _ => true
  }

  /** Completed puts are the journaled ones, except where a crash cut the last put off. */
  ghost predicate GoodHistory(latest: Table, completed: Table, torn: set<Key>, w: Writer) {
    && (forall k :: k in completed ==> k in latest)
    && (forall k :: k in latest && k !in torn && !(w.Journaled? && w.key == k) ==>
         k in completed && completed[k] == latest[k])
  }

  /** The local tier holds what was last journaled, except where a put has not got so far. */
  ghost predicate GoodLocal(local: Table, latest: Table, unjournaled: set<Key>, w: Writer) {
    forall k :: !IsJournal(k) && k !in unjournaled && !((w.Stored? || w.Claimed?) && w.key == k) ==>
      (k in latest <==> k in local) && (k in latest ==> local[k] == latest[k])
  }

  ghost predicate Inv(s: State) {
    && GoodPending(s.local, s.seqNo, s.latest)
    && AllSafe(s.local, s.latest, s.remote)
    && GoodIndex(s.local, s.seqNo, s.index)
    && GoodWriter(s.local, s.seqNo, s.index, s.latest, s.writer)
    && GoodWork(s.local, s.seqNo, s.writer, Work(s.flusher))
    && GoodFlusher(s.local, s.remote, s.flusher)
    && GoodHistory(s.latest, s.completed, s.torn, s.writer)
    && GoodLocal(s.local, s.latest, s.unjournaled, s.writer)
  }

  /** A fresh host: nothing stored, nothing pending, whatever the remote holds. */
  predicate Initial(s: State) {
    s == State(map[], map[], 0, s.remote, Resting, Asleep, map[], map[], {}, {})
  }

  lemma InitialInv(s: State)
    requires Initial(s)
    ensures Inv(s)
  {
  }

  // ----- facts about keys and entries -----

  lemma NumberedOrder(seqNo: nat, a: Key, b: Key)
    requires seqNo <= MAX_SEQ && Numbered(seqNo, a) && Numbered(seqNo, b)
    ensures IsJournal(a) && IsJournal(b)
    ensures 0 <= SeqOf(a) <= seqNo && a == JournalKey(SeqOf(a))
    ensures Less(a, b) <==> SeqOf(a) < SeqOf(b)
    ensures a == b <==> SeqOf(a) == SeqOf(b)
  {
    var m: nat :| m <= seqNo && a == JournalKey(m);
    var n: nat :| n <= seqNo && b == JournalKey(n);
    JournalKeySeq(m);
    JournalKeySeq(n);
    JournalKeyOrder(m, n);
  }

  /** A fresh number is above everything numbered so far. */
  lemma FreshKey(seqNo: nat)
    requires seqNo < MAX_SEQ
    ensures var jk := JournalKey(seqNo + 1);
            && Numbered(seqNo + 1, jk) && IsJournal(jk)
            && forall j :: Numbered(seqNo, j) ==> Numbered(seqNo + 1, j) && Less(j, jk) && j != jk
  {
    var jk := JournalKey(seqNo + 1);
    JournalKeySeq(seqNo + 1);
    forall j | Numbered(seqNo, j) ensures Numbered(seqNo + 1, j) && Less(j, jk) && j != jk {
      var n: nat :| n <= seqNo && j == JournalKey(n);
      JournalKeyOrder(n, seqNo + 1);
      Irreflexive(jk);
    }
  }

  /** The entry in hand is the oldest one left. */
  lemma InHand(s: State, jk: Key)
    requires Inv(s) && Work(s.flusher) != [] && Work(s.flusher)[0] == jk
    ensures IsJournal(jk) && Numbered(s.seqNo, jk)
    ensures forall j :: j in s.local && IsJournal(j) ==> j == jk || Less(jk, j)
  {
    hide GoodIndex, GoodWriter, GoodFlusher, GoodHistory, GoodLocal, AllSafe, Numbered;
    var work := Work(s.flusher);
    assert jk in work;
    NumberedOrder(s.seqNo, jk, jk);
    forall j | j in s.local && IsJournal(j) ensures j == jk || Less(jk, j) {
      if j in work {
        var i :| 0 <= i < |work| && work[i] == j;
      }
    }
  }

  /** Work goes on with the rest once the entry in hand is gone. */
  lemma WorkTail(local: Table, seqNo: nat, w: Writer, jk: Key, todo: seq<Key>)
    requires GoodWork(local, seqNo, w, [jk] + todo)
    ensures GoodWork(local - {jk}, seqNo, w, todo)
  {
    var work := [jk] + todo;
    forall i, j | 0 <= i < j < |todo| ensures Less(todo[i], todo[j]) {
      assert work[i + 1] == todo[i] && work[j + 1] == todo[j];
    }
    assert forall t :: t in todo ==> t in work;
    assert forall t :: t in work && t != jk ==> t in todo;
  }

  /** The tables agree on the entries of `k`. */
  ghost predicate SameEntries(local: Table, local': Table, k: Key) {
    forall j ::
      (IsEntryOf(local, k, j) <==> IsEntryOf(local', k, j)) && (IsEntryOf(local, k, j) ==> local'[j] == local[j])
  }

  lemma SafeSame(local: Table, latest: Table, remote: Table, local': Table, latest': Table, remote': Table, k: Key)
    requires k in latest && Safe(local, latest, remote, k) && k in latest' && latest'[k] == latest[k]
    requires k in remote ==> k in remote' && remote'[k] == remote[k]
    requires SameEntries(local, local', k)
    ensures Safe(local', latest', remote', k)
  {
    forall jk | Newest(local', k, jk) ensures local'[jk].val == latest'[k] {
      assert Newest(local, k, jk);
    }
  }

  /** Storing a user value does not touch the journal. */
  lemma UserStoreSame(local: Table, key: Key, val: Raw, k: Key)
    requires !IsJournal(key)
    ensures SameEntries(local, local[key := val], k)
  {
  }

  /** Deleting an entry that is not the newest of its key is safe. */
  lemma SafeWithout(local: Table, latest: Table, remote: Table, gone: Key, x: Key)
    requires x in latest && Safe(local, latest, remote, x)
    requires IsEntryOf(local, x, gone) ==> exists j :: IsEntryOf(local, x, j) && Less(gone, j)
    ensures Safe(local - {gone}, latest, remote, x)
  {
    var local' := local - {gone};
    if IsEntryOf(local, x, gone) {
      var keep :| IsEntryOf(local, x, keep) && Less(gone, keep);
      Asymmetric(gone, keep);
      assert IsEntryOf(local', x, keep);
      forall jk | Newest(local', x, jk) ensures Newest(local, x, jk) {
        assert AtMost(keep, jk);
        if keep != jk {
          Transitive(gone, keep, jk);
        }
        forall j | IsEntryOf(local, x, j) ensures AtMost(j, jk) {
          if j != gone {
            assert IsEntryOf(local', x, j);
          }
        }
      }
    } else {
      SafeSame(local, latest, remote, local', latest, remote, x);
    }
  }

  // ----- whole runs -----

  ghost predicate IsRun(s: State, run: seq<Action>)
    decreases |run|
  {
    run == [] || (Enabled(s, run[0]) && IsRun(Step(s, run[0]), run[1..]))
  }

  ghost function After(s: State, run: seq<Action>): State
    requires IsRun(s, run)
    decreases |run|
  {
    if run == [] then s else After(Step(s, run[0]), run[1..])
  }

  lemma {:induction false} RunConcat(s: State, u: seq<Action>, v: seq<Action>)
    requires IsRun(s, u) && IsRun(After(s, u), v)
    ensures IsRun(s, u + v) && After(s, u + v) == After(After(s, u), v)
    decreases |u|
  {
    hide Enabled, Step;
    if u == [] {
      assert u + v == v;
    } else {
      assert (u + v)[0] == u[0] && (u + v)[1..] == u[1..] + v;
      RunConcat(Step(s, u[0]), u[1..], v);
    }
  }
}
