/** The writer's steps keep the write-back invariant: storing the value, claiming a number, writing the
    entry, and dropping the one it supersedes. */
module WriterSteps {
  import opened Lex
  import opened Stores
  import opened JournalKeys
  import opened WriteBack

  lemma StoreStep(s: State, key: Key, val: Raw)
    requires Inv(s) && Enabled(s, Action.Store(key, val))
    ensures Inv(Step(s, Action.Store(key, val)))
  {
    hide Safe, Numbered, JournalKey, IsJournal;
    var local' := s.local[key := val];
    forall x | x in s.latest ensures Safe(local', s.latest, s.remote, x) {
      UserStoreSame(s.local, key, val, x);
      SafeSame(s.local, s.latest, s.remote, local', s.latest, s.remote, x);
    }
    forall k, jk | GoodStale(s.local, s.seqNo, k, jk) ensures GoodStale(local', s.seqNo, k, jk) {
      NumberedOrder(s.seqNo, jk, jk);
    }
    StoreFlusher(s, key, val);
  }

  lemma StoreFlusher(s: State, key: Key, val: Raw)
    requires Inv(s) && Enabled(s, Action.Store(key, val))
    ensures GoodFlusher(s.local[key := val], s.remote, s.flusher)
  {
    var f := s.flusher;
    if f.Holding? || f.Acked? {
      InHand(s, f.jk);
    }
    if f.Holding? {
      var j :| IsEntryOf(s.local, f.key, j);
      assert IsEntryOf(s.local[key := val], f.key, j);
    }
  }

  lemma ClaimStep(s: State)
    requires Inv(s) && Enabled(s, Claim)
    ensures Inv(Step(s, Claim))
  {
    hide AllSafe, GoodFlusher, Numbered, Holds, JournalKey, IsJournal;
    FreshKey(s.seqNo);
    var jk := JournalKey(s.seqNo + 1);
    assert jk !in s.local;
    forall x, j | GoodStale(s.local, s.seqNo, x, j) ensures GoodStale(s.local, s.seqNo + 1, x, j) {
    }
  }

  /** The newly written entry is the newest of its key. */
  lemma WrittenIsNewest(s: State, j: Key)
    requires Inv(s) && s.writer.Claimed?
    requires IsEntryOf(s.local[s.writer.jk := Entry(s.writer.key, s.writer.val)], s.writer.key, j)
    ensures j == s.writer.jk || Less(j, s.writer.jk)
  {
    var jk := s.writer.jk;
    JournalKeySeq(s.seqNo);
    if j != jk {
      assert Numbered(s.seqNo, jk) && Numbered(s.seqNo, j);
      NumberedOrder(s.seqNo, j, jk);
    }
  }

  lemma WriteEntrySafe(s: State, x: Key)
    requires Inv(s) && Enabled(s, WriteEntry) && x in Step(s, WriteEntry).latest
    ensures var s' := Step(s, WriteEntry); Safe(s'.local, s'.latest, s'.remote, x)
  {
    var s' := Step(s, WriteEntry);
    var jk := s.writer.jk;
    if x == s.writer.key {
      JournalKeySeq(s.seqNo);
      assert IsEntryOf(s'.local, x, jk);
      forall j | Newest(s'.local, x, j) ensures j == jk {
        assert AtMost(jk, j);
        WrittenIsNewest(s, j);
        if Less(j, jk) {
          Asymmetric(j, jk);
        }
      }
    } else {
      SafeSame(s.local, s.latest, s.remote, s'.local, s'.latest, s'.remote, x);
    }
  }

  lemma WriteEntryWork(s: State)
    requires Inv(s) && Enabled(s, WriteEntry)
    ensures var s' := Step(s, WriteEntry);
            && GoodWork(s'.local, s'.seqNo, s'.writer, Work(s.flusher))
            && GoodFlusher(s'.local, s'.remote, s.flusher)
  {
    hide Numbered, GoodIndex, GoodHistory, GoodLocal, AllSafe, GoodPending, JournalKey, IsJournal;
    var s' := Step(s, WriteEntry);
    var f, jk := s.flusher, s.writer.jk;
    Irreflexive(jk);
    assert jk !in Work(f);
    if f.Holding? || f.Acked? {
      assert f.jk in Work(f);
    }
    if f.Holding? {
      var j :| IsEntryOf(s.local, f.key, j);
      assert IsEntryOf(s'.local, f.key, j);
    }
  }

  lemma ClaimedNumbered(seqNo: nat)
    requires seqNo <= MAX_SEQ
    ensures Numbered(seqNo, JournalKey(seqNo)) && IsJournal(JournalKey(seqNo))
  {
    JournalKeySeq(seqNo);
  }

  lemma WriteEntryStep(s: State)
    requires Inv(s) && Enabled(s, WriteEntry)
    ensures Inv(Step(s, WriteEntry))
  {
    hide Safe, GoodWork, GoodFlusher, Numbered, JournalKey, IsJournal;
    var s' := Step(s, WriteEntry);
    var jk := s.writer.jk;
    ClaimedNumbered(s.seqNo);
    forall x | x in s'.latest ensures Safe(s'.local, s'.latest, s'.remote, x) {
      WriteEntrySafe(s, x);
    }
    WriteEntryWork(s);
    if s.writer.stale.Some? {
      Irreflexive(jk);
    }
  }

  lemma CompactWork(s: State)
    requires Inv(s) && Enabled(s, Compact) && s.writer.stale.Some? && s.writer.stale.value in s.local
    ensures var s' := Step(s, Compact);
            && GoodWork(s'.local, s'.seqNo, s'.writer, Work(s.flusher))
            && GoodFlusher(s'.local, s'.remote, s.flusher)
  {
    hide Numbered, GoodIndex, GoodHistory, GoodLocal, AllSafe, GoodPending, JournalKey, IsJournal;
    var local' := s.local - {s.writer.stale.value};
    var f := s.flusher;
    if f.Holding? {
      var j :| IsEntryOf(s.local, f.key, j);
      if j == s.writer.stale.value {
        Irreflexive(j);
        assert IsEntryOf(local', f.key, s.writer.jk);
      } else {
        assert IsEntryOf(local', f.key, j);
      }
    }
  }

  lemma CompactTables(s: State)
    requires Inv(s) && Enabled(s, Compact)
    ensures var s' := Step(s, Compact);
            GoodPending(s'.local, s'.seqNo, s'.latest) && GoodIndex(s'.local, s'.seqNo, s'.index)
  {
    hide GoodHistory, GoodLocal, AllSafe, Numbered, GoodFlusher, GoodWork, JournalKey, IsJournal;
    var w := s.writer;
    if w.stale.Some? && w.stale.value in s.local {
      assert IsEntryOf(s.local, w.key, w.stale.value);
    }
  }

  lemma CompactHistory(s: State)
    requires Inv(s) && Enabled(s, Compact)
    ensures var s' := Step(s, Compact);
            && GoodHistory(s'.latest, s'.completed, s'.torn, s'.writer)
            && GoodLocal(s'.local, s'.latest, s'.unjournaled, s'.writer)
  {
    hide GoodPending, GoodIndex, AllSafe, Numbered, GoodFlusher, GoodWork, JournalKey, IsJournal;
    var w := s.writer;
    if w.stale.Some? && w.stale.value in s.local {
      assert IsEntryOf(s.local, w.key, w.stale.value);
    }
  }

  lemma CompactStep(s: State)
    requires Inv(s) && Enabled(s, Compact)
    ensures Inv(Step(s, Compact))
  {
    hide Safe, Numbered, GoodFlusher, GoodPending, GoodIndex, GoodHistory, GoodLocal, JournalKey, IsJournal;
    var w := s.writer;
    CompactTables(s);
    CompactHistory(s);
    if w.stale.Some? && w.stale.value in s.local {
      var gone := w.stale.value;
      assert IsEntryOf(s.local, w.key, gone);
      forall x | x in s.latest ensures Safe(s.local - {gone}, s.latest, s.remote, x) {
        SafeWithout(s.local, s.latest, s.remote, gone, x);
      }
      CompactWork(s);
    } else {
      assert Step(s, Compact).local == s.local;
    }
  }
}
