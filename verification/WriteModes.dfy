/** What later flushes make of a put. */
module WriteModes {
  import opened Lex
  import opened Options
  import opened Stores
  import opened JournalKeys
  import opened WriteBack
  import opened Convergence
  import opened UndisturbedRuns

  // ----- what a flush delivers -----

  ghost predicate AllOk(replies: seq<Reply>) {
    forall i :: 0 <= i < |replies| ==> replies[i].Ok?
  }

  lemma AllOkNext(replies: seq<Reply>)
    requires AllOk(replies)
    ensures Next(replies).Ok? && AllOk(Rest(replies))
  {
  }

  /** The value of the last of the listed entries that belongs to `key`. */
  ghost function LastEntry(local: Table, ks: seq<Key>, key: Key): Option<Raw> {
    if ks == [] then None
    else
      var later := LastEntry(local, ks[1..], key);
      if later.Some? then later
      else if IsEntryOf(local, key, ks[0]) then Some(local[ks[0]].val) else None
  }

  lemma {:induction false} LastEntryWithout(local: Table, ks: seq<Key>, gone: Key, key: Key)
    requires gone !in ks
    ensures LastEntry(local - {gone}, ks, key) == LastEntry(local, ks, key)
  {
    if ks != [] {
      LastEntryWithout(local, ks[1..], gone, key);
    }
  }

  lemma HeadFirst(ks: seq<Key>)
    requires Ascending(ks) && ks != []
    ensures Ascending(ks[1..]) && ks[0] !in ks[1..]
    ensures forall k :: k in ks[1..] ==> Less(ks[0], k)
  {
    Irreflexive(ks[0]);
  }

  /** The remote holds the given value, or what it held before. */
  predicate Receives(before: Table, after: Table, key: Key, v: Option<Raw>) {
    if v.Some? then HasValue(after, key, v.value)
    else (key in after <==> key in before) && (key in before ==> after[key] == before[key])
  }

  lemma ReceivesLater(before: Table, key: Key, k: Key, v: Raw, after: Table, later: Option<Raw>)
    requires Receives(before[k := v], after, key, later)
    ensures Receives(before, after, key, if later.None? && k == key then Some(v) else later)
  {
  }

  lemma {:induction false} RestDelivers(s: State, replies: seq<Reply>, key: Key)
    requires s.flusher.Sending? && Ascending(s.flusher.todo) && AllOk(replies)
    requires forall k :: k in s.flusher.todo ==> IsJournal(k)
    ensures Receives(s.remote, FlushResult(s, replies).remote, key, LastEntry(s.local, s.flusher.todo, key))
    decreases |s.flusher.todo|
  {
    FlushUnfolds(s, replies);
    hide FlushResult, Step, Sent, IsJournal, Less;
    if s.flusher.todo != [] {
      var jk, rest := s.flusher.todo[0], s.flusher.todo[1..];
      assert s.flusher.todo == [jk] + rest;
      HeadFirst(s.flusher.todo);
      hide Ascending, Receives;
      ReadExplicit(s, jk, rest);
      AllOkNext(replies);
      hide AllOk;
      LastEntryWithout(s.local, rest, jk, key);
      if jk in s.local && s.local[jk].Entry? {
        var k, v := s.local[jk].key, s.local[jk].val;
        RestDelivers(Sent(s), Rest(replies), key);
        ReceivesLater(s.remote, key, k, v, FlushResult(s, replies).remote, LastEntry(s.local, rest, key));
        assert IsEntryOf(s.local, key, jk) <==> k == key;
      } else {
        RestDelivers(Step(s, ReadEntry), replies, key);
      }
    }
  }

  lemma {:induction false} LastIsNewest(local: Table, ks: seq<Key>, key: Key, jk: Key)
    requires Ascending(ks) && jk in ks && IsEntryOf(local, key, jk)
    requires forall j :: j in ks && IsEntryOf(local, key, j) ==> AtMost(j, jk)
    ensures LastEntry(local, ks, key) == Some(local[jk].val)
  {
    HeadFirst(ks);
    if jk in ks[1..] {
      LastIsNewest(local, ks[1..], key, jk);
    } else {
      forall j | j in ks[1..] ensures !IsEntryOf(local, key, j) {
        if IsEntryOf(local, key, j) {
          Asymmetric(jk, j);
        }
      }
      NoEntry(local, ks[1..], key);
    }
  }

  lemma {:induction false} NoEntry(local: Table, ks: seq<Key>, key: Key)
    requires forall j :: j in ks ==> !IsEntryOf(local, key, j)
    ensures LastEntry(local, ks, key) == None
  {
    if ks != [] {
      NoEntry(local, ks[1..], key);
    }
  }

  /** The remote ends with the newest pending entry of the key, or as it was if none is pending. */
  ghost predicate Delivered(local: Table, remote: Table, after: Table, key: Key) {
    && (forall jk :: Newest(local, key, jk) ==> HasValue(after, key, local[jk].val))
    && ((forall jk :: !IsEntryOf(local, key, jk)) ==> Receives(remote, after, key, None))
  }

  /** A flush that meets no failure does so for every key, from every state. */
  lemma FlushDelivers(s: State, replies: seq<Reply>, key: Key)
    requires s.flusher.Asleep? && AllOk(replies)
    ensures IsRun(s, FlushRun(s, replies))
    ensures Delivered(s.local, s.remote, After(s, FlushRun(s, replies)).remote, key)
  {
    var ks := Sorted(Pending(s.local));
    var s1 := s.(flusher := Sending(ks));
    FlushStarts(s, replies);
    assert forall k :: k in ks ==> IsJournal(k);
    assert forall k :: IsEntryOf(s.local, key, k) ==> k in ks;
    hide FlushResult, IsRun, After, FlushRun, Sorted, Pending, Receives;
    RestDelivers(s1, replies, key);
    forall jk | Newest(s.local, key, jk) ensures LastEntry(s.local, ks, key) == Some(s.local[jk].val) {
      LastIsNewest(s.local, ks, key, jk);
    }
    if forall jk :: !IsEntryOf(s.local, key, jk) {
      NoEntry(s.local, ks, key);
    }
    assert forall v: Raw, after :: Receives(s.remote, after, key, Some(v)) ==> HasValue(after, key, v) by {
      ReceivesValue(s.remote, key);
    }
  }

  lemma ReceivesValue(before: Table, key: Key)
    ensures forall v: Raw, after :: Receives(before, after, key, Some(v)) ==> HasValue(after, key, v)
  {
  }

  lemma FlushDeliversAll(s: State, replies: seq<Reply>)
    requires s.flusher.Asleep? && AllOk(replies)
    ensures IsRun(s, FlushRun(s, replies))
    ensures forall key :: Delivered(s.local, s.remote, After(s, FlushRun(s, replies)).remote, key)
  {
    hide IsRun, After, FlushRun, Delivered, AllOk;
    FlushDelivers(s, replies, []);
    forall key ensures Delivered(s.local, s.remote, After(s, FlushRun(s, replies)).remote, key) {
      FlushDelivers(s, replies, key);
    }
  }

  // ----- what a flush that fails leaves -----

  /** The pending keys are exactly the listed ones. */
  ghost predicate Lists(local: Table, ks: seq<Key>) {
    (forall k :: k in ks ==> IsJournal(k)) && forall j :: IsJournal(j) ==> (j in local <==> j in ks)
  }

  lemma ListsRest(local: Table, jk: Key, rest: seq<Key>)
    requires Ascending([jk] + rest) && Lists(local, [jk] + rest)
    ensures Ascending(rest) && Lists(local - {jk}, rest)
  {
    HeadFirst([jk] + rest);
    assert ([jk] + rest)[1..] == rest;
  }

  lemma {:induction false} RestLeaves(s: State, replies: seq<Reply>) returns (k: nat)
    requires s.flusher.Sending? && Ascending(s.flusher.todo) && Lists(s.local, s.flusher.todo)
    ensures k <= |s.flusher.todo| && Lists(FlushResult(s, replies).local, s.flusher.todo[k..])
    ensures AllOk(replies) ==> k == |s.flusher.todo|
    decreases |s.flusher.todo|
  {
    FlushUnfolds(s, replies);
    hide FlushResult, Step, Sent, Ascending, Lists;
    k := 0;
    var todo := s.flusher.todo;
    assert todo[0..] == todo;
    if todo != [] {
      var jk, rest := todo[0], todo[1..];
      assert todo == [jk] + rest;
      ReadExplicit(s, jk, rest);
      ListsRest(s.local, jk, rest);
      var s1 := Step(s, ReadEntry);
      if !s1.flusher.Holding? {
        var i := RestLeaves(s1, replies);
        k := i + 1;
        assert todo[k..] == rest[i..];
      } else if Next(replies).Ok? {
        var i := RestLeaves(Sent(s), Rest(replies));
        k := i + 1;
        assert todo[k..] == rest[i..];
      }
    }
  }

  /** Whatever the remote answers, a flush leaves pending exactly the newest part of what was pending; without
      a failure it leaves nothing. */
  lemma FlushLeavesNewest(s: State, replies: seq<Reply>) returns (k: nat)
    requires s.flusher.Asleep?
    ensures var ks := Sorted(Pending(s.local));
            && IsRun(s, FlushRun(s, replies)) && k <= |ks|
            && Lists(After(s, FlushRun(s, replies)).local, ks[k..])
            && (AllOk(replies) ==> k == |ks|)
  {
    var ks := Sorted(Pending(s.local));
    FlushStarts(s, replies);
    assert Lists(s.local, ks) by {
      assert forall j :: j in ks <==> j in Pending(s.local);
    }
    hide FlushResult, IsRun, After, FlushRun, Sorted, Pending, Lists;
    k := RestLeaves(s.(flusher := Sending(ks)), replies);
  }

  // ----- puts -----

  /** Every pending entry carries a number handed out already, as in every state of an in-memory store. */
  ghost predicate PendingBelow(s: State) {
    IndexBelow(s.index, s.seqNo) && forall j :: j in s.local && IsJournal(j) ==> Numbered(s.seqNo, j)
  }

  /** A queued put is the newest entry of its key. */
  lemma EnqueuedNewest(s: State, key: Key, val: Raw)
    requires PendingBelow(s) && !IsJournal(key) && s.seqNo < MAX_SEQ
    ensures var t, jk := Enqueued(s, key, val), JournalKey(s.seqNo + 1);
            && Newest(t.local, key, jk) && HasValue(t.local, jk, Entry(key, val))
            && key in t.index && t.index[key] == jk
  {
    var t, jk := Enqueued(s, key, val), JournalKey(s.seqNo + 1);
    JournalKeySeq(s.seqNo + 1);
    FreshKey(s.seqNo);
    hide JournalKey, Numbered, Less;
    forall j | IsEntryOf(t.local, key, j) ensures AtMost(j, jk) {
      if j != jk {
        assert j in s.local && IsJournal(j);
      }
    }
  }

  /** The put waits in the journal: the entry indexed for its key holds its value. */
  ghost predicate Queued(local: Table, index: map<Key, Key>, key: Key, val: Raw) {
    key in index && IsJournal(index[key]) && HasValue(local, index[key], Entry(key, val))
  }

  /** Nothing is pending for the key but what the index names. */
  ghost predicate OnlyIndexed(local: Table, index: map<Key, Key>, key: Key) {
    forall j :: IsEntryOf(local, key, j) ==> key in index && j == index[key]
  }

  lemma StoredOnlyIndexed(local: Table, index: map<Key, Key>, key: Key, val: Raw)
    requires !IsJournal(key)
    ensures OnlyIndexed(local[key := val], index, key) <==> OnlyIndexed(local, index, key)
    ensures HasValue(local[key := val], key, val)
  {
    UserStoreSame(local, key, val, key);
  }

  lemma EnqueuedIsQueued(s: State, key: Key, val: Raw)
    requires IndexBelow(s.index, s.seqNo) && JournalIndex(s.index) && !IsJournal(key) && s.seqNo < MAX_SEQ
    ensures var t := Enqueued(s, key, val);
            && Queued(t.local, t.index, key, val) && IndexBelow(t.index, t.seqNo)
            && (OnlyIndexed(s.local, s.index, key) ==> OnlyIndexed(t.local, t.index, key))
            && (key in s.local ==> HasValue(t.local, key, s.local[key]))
  {
    JournalKeySeq(s.seqNo + 1);
    hide JournalKey, SeqOf, OnlyIndexed, HasPrefix;
    EnqueuedOnly(s, key, val);
  }

  lemma EnqueuedOnly(s: State, key: Key, val: Raw)
    ensures OnlyIndexed(s.local, s.index, key) ==>
              OnlyIndexed(Enqueued(s, key, val).local, Enqueued(s, key, val).index, key)
  {
    var t, jk := Enqueued(s, key, val), JournalKey(s.seqNo + 1);
    hide JournalKey, HasPrefix;
    assert forall j :: IsEntryOf(t.local, key, j) && j != jk ==> IsEntryOf(s.local, key, j);
  }

  /** A put that is queued, with nothing else pending for its key, reaches the remote by the next flush that
      meets no failure; one that is on the remote, with nothing pending, stays there. */
  lemma FlushKeepsPut(s: State, replies: seq<Reply>, key: Key, val: Raw)
    requires s.flusher.Asleep? && AllOk(replies)
    requires || (Queued(s.local, s.index, key, val) && OnlyIndexed(s.local, s.index, key))
             || (HasValue(s.remote, key, val) && forall j :: !IsEntryOf(s.local, key, j))
    ensures IsRun(s, FlushRun(s, replies)) && HasValue(After(s, FlushRun(s, replies)).remote, key, val)
  {
    hide IsRun, After, FlushRun;
    FlushDelivers(s, replies, key);
    if Queued(s.local, s.index, key, val) && OnlyIndexed(s.local, s.index, key) {
      assert Newest(s.local, key, s.index[key]);
    }
  }

  /** Storing a value leaves the pending entries alone. */
  lemma StoredPending(s: State, t: State, key: Key, val: Raw)
    requires !IsJournal(key) && t.local == s.local[key := val] && t.index == s.index && t.seqNo == s.seqNo
    ensures PendingBelow(s) ==> PendingBelow(t)
    ensures forall j :: IsEntryOf(t.local, key, j) <==> IsEntryOf(s.local, key, j)
    ensures forall j :: Newest(t.local, key, j) <==> Newest(s.local, key, j)
    ensures forall j :: IsEntryOf(s.local, key, j) ==> t.local[j] == s.local[j]
  {
  }

  /** After a flush without failures: the value of a put the remote took, or of the newest entry pending for
      its key at the time, sent over it. */
  ghost predicate Overtaken(before: Table, after: Table, key: Key, val: Raw) {
    && (forall j :: Newest(before, key, j) ==> HasValue(after, key, before[j].val))
    && ((forall j :: !IsEntryOf(before, key, j)) ==> HasValue(after, key, val))
  }

  lemma DirectThenFlush(s: State, t: State, replies: seq<Reply>, key: Key, val: Raw)
    requires t.flusher.Asleep? && AllOk(replies) && !IsJournal(key)
    requires t.local == s.local[key := val] && t.index == s.index && t.seqNo == s.seqNo
    requires HasValue(t.remote, key, val)
    ensures IsRun(t, FlushRun(t, replies)) && Overtaken(s.local, After(t, FlushRun(t, replies)).remote, key, val)
  {
    hide IsRun, After, FlushRun;
    StoredPending(s, t, key, val);
    FlushDelivers(t, replies, key);
  }

  lemma QueueThenFlush(s: State, t: State, replies: seq<Reply>, key: Key, val: Raw)
    requires t.flusher.Asleep? && AllOk(replies) && !IsJournal(key) && s.seqNo < MAX_SEQ && PendingBelow(s)
    requires t.local == s.local[key := val] && t.index == s.index && t.seqNo == s.seqNo
    ensures var u := Enqueued(t, key, val);
            IsRun(u, FlushRun(u, replies)) && HasValue(After(u, FlushRun(u, replies)).remote, key, val)
  {
    var u := Enqueued(t, key, val);
    assert u.flusher.Asleep?;
    hide IsRun, After, FlushRun, Enqueued, Newest, PendingBelow;
    StoredPending(s, t, key, val);
    EnqueuedNewest(t, key, val);
    FlushDelivers(u, replies, key);
  }

  /** A remote-authoritative put, then a flush that meets no failure.  If the put was journaled, the remote ends
      with its value; if the remote took it, an older entry still pending for the key is sent over it. */
  lemma AuthoritativeThenFlush(s: State, healthy: bool, reply: Reply, key: Key, val: Raw, replies: seq<Reply>)
    requires s.flusher.Asleep? && PendingBelow(s) && !IsJournal(key) && s.seqNo < MAX_SEQ && AllOk(replies)
    ensures var t := AuthoritativeState(s, false, healthy, reply, key, val);
            && IsRun(t, FlushRun(t, replies))
            && var after := After(t, FlushRun(t, replies)).remote;
               if healthy && reply.Ok? then Overtaken(s.local, after, key, val) else HasValue(after, key, val)
  {
    var t := AuthoritativeState(s, false, healthy, reply, key, val);
    var stored := s.(local := s.local[key := val]);
    hide IsRun, After, FlushRun, Enqueued, PendingBelow, Overtaken;
    if healthy && reply.Ok? {
      DirectThenFlush(s, t, replies, key, val);
    } else {
      QueueThenFlush(s, if !healthy || reply.Failed? then stored else stored.(remote := s.remote[key := val]),
                     replies, key, val);
    }
  }

  /** The same for a write-through put that reports success. */
  lemma ThroughThenFlush(s: State, healthy: bool, reply: Reply, key: Key, val: Raw, replies: seq<Reply>)
    requires s.flusher.Asleep? && PendingBelow(s) && !IsJournal(key) && s.seqNo < MAX_SEQ && AllOk(replies)
    requires healthy ==> reply.Ok?
    ensures var t := ThroughState(s, false, healthy, reply, key, val);
            && IsRun(t, FlushRun(t, replies))
            && var after := After(t, FlushRun(t, replies)).remote;
               if healthy then Overtaken(s.local, after, key, val) else HasValue(after, key, val)
  {
    var t := ThroughState(s, false, healthy, reply, key, val);
    var stored := s.(local := s.local[key := val]);
    hide IsRun, After, FlushRun, Enqueued, PendingBelow, Overtaken;
    if healthy {
      DirectThenFlush(s, t, replies, key, val);
    } else {
      QueueThenFlush(s, stored, replies, key, val);
    }
  }
}
