/** The flusher's steps and crashes keep the write-back invariant: snapshot, read, send, drop, unindex,
    and recovery; so does every run. */
module FlusherSteps {
  import opened Lex
  import opened Stores
  import opened JournalKeys
  import opened WriteBack
  import opened WriterSteps

  lemma PendingMeans(local: Table)
    ensures forall j :: j in Pending(local) <==> j in local && IsJournal(j)
  {
  }

  lemma FlushStartStep(s: State)
    requires Inv(s) && Enabled(s, FlushStart)
    ensures Inv(Step(s, FlushStart))
  {
    PendingMeans(s.local);
    hide GoodIndex, GoodHistory, GoodLocal, AllSafe, Sorted, Pending, JournalKey, IsJournal;
    var work := Sorted(Pending(s.local));
    forall t | t in work ensures Numbered(s.seqNo, t) && (s.writer.Claimed? ==> Less(t, s.writer.jk)) {
      assert t in Pending(s.local);
      if s.writer.Claimed? {
        ClaimedNumbered(s.seqNo);
        JournalKeySeq(s.seqNo);
        assert Numbered(s.seqNo, s.writer.jk) && t != s.writer.jk;
        NumberedOrder(s.seqNo, t, s.writer.jk);
      }
    }
    forall j | j in s.local && IsJournal(j) ensures j in work {
      assert j in Pending(s.local);
    }
  }

  lemma ReadEntryStep(s: State)
    requires Inv(s) && Enabled(s, ReadEntry)
    ensures Inv(Step(s, ReadEntry))
  {
    hide GoodIndex, GoodHistory, GoodLocal, AllSafe, Numbered, GoodWriter, JournalKey, IsJournal;
    var jk, rest := s.flusher.todo[0], s.flusher.todo[1..];
    InHand(s, jk);
    assert s.flusher.todo == [jk] + rest;
    if jk in s.local {
      assert IsEntryOf(s.local, s.local[jk].key, jk);
    } else {
      assert s.local - {jk} == s.local;
      WorkTail(s.local, s.seqNo, s.writer, jk, rest);
    }
  }

  lemma SendSafe(s: State, v: Raw, x: Key)
    requires Inv(s) && s.flusher.Holding? && x in s.latest
    ensures Safe(s.local, s.latest, s.remote[s.flusher.key := v], x)
  {
    if x == s.flusher.key {
      assert Safe(s.local, s.latest, s.remote, x);
    } else {
      SafeSame(s.local, s.latest, s.remote, s.local, s.latest, s.remote[s.flusher.key := v], x);
    }
  }

  lemma SendStep(s: State, reply: Reply)
    requires Inv(s) && Enabled(s, Send(reply))
    ensures Inv(Step(s, Send(reply)))
  {
    hide GoodIndex, GoodHistory, GoodLocal, Safe, Numbered, GoodWriter, GoodPending, JournalKey, IsJournal;
    forall x | x in s.latest ensures Safe(s.local, s.latest, s.remote[s.flusher.key := s.flusher.val], x) {
      SendSafe(s, s.flusher.val, x);
    }
  }

  /** The acknowledged entry may go: either a newer one is pending, or the remote now holds its value. */
  lemma DropSafe(s: State, x: Key)
    requires Inv(s) && Enabled(s, DropEntry) && x in s.latest
    ensures Safe(s.local - {s.flusher.jk}, s.latest, s.remote, x)
  {
    var jk := s.flusher.jk;
    InHand(s, jk);
    assert Safe(s.local, s.latest, s.remote, x);
    if IsEntryOf(s.local, x, jk) && !(exists j :: IsEntryOf(s.local, x, j) && Less(jk, j)) {
      assert Newest(s.local, x, jk);
      forall j ensures !IsEntryOf(s.local - {jk}, x, j) {
        assert IsEntryOf(s.local - {jk}, x, j) ==> IsEntryOf(s.local, x, j) && j != jk;
      }
    } else {
      SafeWithout(s.local, s.latest, s.remote, jk, x);
    }
  }

  /** While an older entry of its key is pending, the writer's own entry is not in hand. */
  lemma StaleBelow(s: State)
    requires Inv(s) && s.flusher.Acked? && s.writer.Journaled? && s.writer.stale.Some?
    requires s.writer.stale.value in s.local && s.writer.stale.value != s.flusher.jk
    ensures s.flusher.jk != s.writer.jk
  {
    InHand(s, s.flusher.jk);
    assert IsEntryOf(s.local, s.writer.key, s.writer.stale.value);
    if s.flusher.jk == s.writer.jk {
      Asymmetric(s.writer.stale.value, s.writer.jk);
    }
  }

  lemma DropEntryStep(s: State)
    requires Inv(s) && Enabled(s, DropEntry)
    ensures Inv(Step(s, DropEntry))
  {
    hide Safe, Numbered, JournalKey, IsJournal;
    var f, w := s.flusher, s.writer;
    var local' := s.local - {f.jk};
    InHand(s, f.jk);
    forall x | x in s.latest ensures Safe(local', s.latest, s.remote, x) {
      DropSafe(s, x);
    }
    if w.Journaled? && w.stale.Some? && w.stale.value in local' {
      StaleBelow(s);
    }
    WorkTail(s.local, s.seqNo, w, f.jk, f.todo);
  }

  lemma UnindexStep(s: State)
    requires Inv(s) && Enabled(s, Unindex)
    ensures Inv(Step(s, Unindex))
  {
    hide GoodHistory, GoodLocal, AllSafe, Numbered, GoodPending, GoodStale, GoodWork, JournalKey, IsJournal;
  }

  lemma FlushEndStep(s: State)
    requires Inv(s) && Enabled(s, FlushEnd)
    ensures Inv(Step(s, FlushEnd))
  {
    hide GoodIndex, GoodHistory, GoodLocal, AllSafe, Numbered, GoodWriter, GoodPending, JournalKey, IsJournal;
  }

  lemma {:induction false} MaxSeqBounded(ks: seq<Key>, bound: nat)
    requires forall k :: k in ks ==> SeqOf(k) <= bound
    ensures MaxSeq(ks, 0) <= bound
  {
    if ks != [] {
      MaxSeqBounded(ks[..|ks| - 1], bound);
    }
  }

  /** Recovery numbers on from the highest pending entry. */
  lemma CrashNumbers(s: State)
    requires Inv(s)
    ensures var s' := Step(s, Crash);
            s'.seqNo <= s.seqNo && forall j :: j in Pending(s.local) ==> Numbered(s'.seqNo, j)
  {
    var s' := Step(s, Crash);
    var ks := Sorted(Pending(s.local));
    forall k | k in ks ensures SeqOf(k) <= s.seqNo {
      assert k in Pending(s.local);
      NumberedOrder(s.seqNo, k, k);
    }
    MaxSeqBounded(ks, s.seqNo);
    forall j | j in Pending(s.local) ensures Numbered(s'.seqNo, j) {
      assert j in ks;
      NumberedOrder(s.seqNo, j, j);
      assert JournalKey(SeqOf(j)) == j;
    }
  }

  lemma CrashStep(s: State)
    requires Inv(s)
    ensures Inv(Step(s, Crash))
  {
    PendingMeans(s.local);
    hide AllSafe, MaxSeq, Reindex, Numbered, Sorted, Pending, JournalKey, IsJournal;
    var s' := Step(s, Crash);
    CrashNumbers(s);
    forall j | j in s.local && IsJournal(j) ensures Numbered(s'.seqNo, j) {
      assert j in Pending(s.local);
    }
    forall k | k in s'.index ensures GoodStale(s'.local, s'.seqNo, k, s'.index[k]) {
      assert s'.index[k] in Pending(s.local);
    }
  }

  /** Every step, a crash at any point included, keeps the invariant. */
  lemma StepKeepsInv(s: State, a: Action)
    requires Inv(s) && Enabled(s, a)
    ensures Inv(Step(s, a))
  {
    hide Inv, Step;
    match a
    case Store(key, val) => StoreStep(s, key, val);
    case Claim => ClaimStep(s);
    case WriteEntry => WriteEntryStep(s);
    case Compact => CompactStep(s);
    case FlushStart => FlushStartStep(s);
    case ReadEntry => ReadEntryStep(s);
    case Send(reply) => SendStep(s, reply);
    case DropEntry => DropEntryStep(s);
    case Unindex => UnindexStep(s);
    case FlushEnd => FlushEndStep(s);
    case Crash => CrashStep(s);
  }

  lemma {:induction false} RunKeepsInv(s: State, run: seq<Action>)
    requires Inv(s) && IsRun(s, run)
    ensures Inv(After(s, run))
    decreases |run|
  {
    hide Inv, JournalKey, IsJournal;
    if run != [] {
      StepKeepsInv(s, run[0]);
      RunKeepsInv(Step(s, run[0]), run[1..]);
    }
  }
}
