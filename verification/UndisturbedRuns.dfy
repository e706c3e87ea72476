/** What calls that nothing interrupts do: their runs of the write-back protocol, spelled out. */
module UndisturbedRuns {
  import opened Lex
  import opened Stores
  import opened JournalKeys
  import opened WriteBack
  import opened Convergence

  function Next(replies: seq<Reply>): Reply {
    if replies == [] then Ok else replies[0]
  }

  function Rest(replies: seq<Reply>): seq<Reply> {
    if replies == [] then [] else replies[1..]
  }

  /** The four steps of an undisturbed write-back put. */
  function PutRun(key: Key, val: Raw): seq<Action> {
    [Action.Store(key, val), Claim, WriteEntry, Compact]
  }

  /** The steps of an undisturbed flush, from its snapshot on, with the given replies. */
  ghost function FlushFrom(s: State, replies: seq<Reply>): seq<Action>
    requires s.flusher.Sending?
    decreases |s.flusher.todo|
  {
    if s.flusher.todo == [] then [FlushEnd]
    else
      var s1 := Step(s, ReadEntry);
      if !s1.flusher.Holding? then [ReadEntry] + FlushFrom(s1, replies)
      else if !Next(replies).Ok? then [ReadEntry, Send(Next(replies))]
      else [ReadEntry, Send(Ok), DropEntry, Unindex] + FlushFrom(Sent(s), Rest(replies))
  }

  ghost function FlushRun(s: State, replies: seq<Reply>): seq<Action>
    requires s.flusher.Asleep?
  {
    [FlushStart] + FlushFrom(Step(s, FlushStart), replies)
  }

  /** How many entries a run sends successfully. */
  function Sends(run: seq<Action>): nat {
    if run == [] then 0 else (if run[0] == Send(Ok) then 1 else 0) + Sends(run[1..])
  }

  lemma SendsRound(rest: seq<Action>)
    ensures Sends([ReadEntry, Send(Ok), DropEntry, Unindex] + rest) == 1 + Sends(rest)
  {
    SendsFirst(Unindex, rest);
    SendsFirst(DropEntry, [Unindex] + rest);
    SendsFirst(Send(Ok), [DropEntry] + ([Unindex] + rest));
    SendsFirst(ReadEntry, [Send(Ok)] + ([DropEntry] + ([Unindex] + rest)));
    assert [ReadEntry, Send(Ok), DropEntry, Unindex] + rest ==
           [ReadEntry] + ([Send(Ok)] + ([DropEntry] + ([Unindex] + rest)));
  }

  lemma SendsUnfold(s: State, replies: seq<Reply>)
    requires s.flusher.Sending?
    ensures s.flusher.todo == [] ==> Sends(FlushFrom(s, replies)) == 0
    ensures s.flusher.todo != [] ==>
              var s1 := Step(s, ReadEntry);
              Sends(FlushFrom(s, replies)) ==
              if !s1.flusher.Holding? then Sends(FlushFrom(s1, replies))
              else if !Next(replies).Ok? then 0
              else 1 + Sends(FlushFrom(Sent(s), Rest(replies)))
  {
    assert Sends([]) == 0;
    hide Sends;
    if s.flusher.todo == [] {
      SendsFirst(FlushEnd, []);
      assert FlushFrom(s, replies) == [FlushEnd] + [];
    } else {
      var s1 := Step(s, ReadEntry);
      if s1.flusher.Holding? && Next(replies).Ok? {
        SendsRound(FlushFrom(Sent(s), Rest(replies)));
      } else if s1.flusher.Holding? {
        SendsFirst(Send(Next(replies)), []);
        SendsFirst(ReadEntry, [Send(Next(replies))]);
        assert FlushFrom(s, replies) == [ReadEntry] + [Send(Next(replies))];
      } else {
        SendsFirst(ReadEntry, FlushFrom(s1, replies));
      }
    }
  }

  lemma FlushStartSends(s: State, replies: seq<Reply>)
    requires s.flusher.Asleep?
    ensures Sends(FlushRun(s, replies)) == Sends(FlushFrom(s.(flusher := Sending(Sorted(Pending(s.local)))), replies))
  {
    SendsFirst(FlushStart, FlushFrom(Step(s, FlushStart), replies));
  }

  lemma SendsFirst(a: Action, run: seq<Action>)
    ensures Sends([a] + run) == (if a == Send(Ok) then 1 else 0) + Sends(run)
  {
    assert ([a] + run)[1..] == run;
  }

  /** With no failing reply this is the fully successful flush. */
  lemma {:induction false} FlushFromIsDrain(s: State)
    requires s.flusher.Sending?
    ensures FlushFrom(s, []) == Drain(s)
    decreases |s.flusher.todo|
  {
    if s.flusher.todo != [] {
      var s1 := Step(s, ReadEntry);
      if s1.flusher.Holding? {
        FlushFromIsDrain(Sent(s));
      } else {
        FlushFromIsDrain(s1);
      }
    }
  }

  lemma PutRunAfter(s: State, key: Key, val: Raw)
    requires s.writer.Resting? && !IsJournal(key) && s.seqNo < MAX_SEQ
    ensures IsRun(s, PutRun(key, val))
    ensures After(s, PutRun(key, val)) ==
            Step(Step(Step(Step(s, Action.Store(key, val)), Claim), WriteEntry), Compact)
  {
    var s2 := Step(Step(s, Action.Store(key, val)), Claim);
    TwoSteps(s, Action.Store(key, val), Claim);
    TwoSteps(s2, WriteEntry, Compact);
    RunConcat(s, [Action.Store(key, val), Claim], [WriteEntry, Compact]);
    assert [Action.Store(key, val), Claim] + [WriteEntry, Compact] == PutRun(key, val);
  }

  /** What journaling a put does, in one go. */
  ghost function Enqueued(s: State, key: Key, val: Raw): State {
    var jk := JournalKey(s.seqNo + 1);
    var written := s.local[jk := Entry(key, val)];
    s.(local := if key in s.index then written - {s.index[key]} else written,
       index := s.index[key := jk],
       seqNo := s.seqNo + 1,
       latest := s.latest[key := val],
       completed := s.completed[key := val],
       torn := s.torn - {key},
       unjournaled := s.unjournaled - {key})
  }

  /** What is left of it when the store is closed: the number is used up and indexed, nothing is written. */
  ghost function ClaimOnly(s: State, key: Key): State {
    s.(index := s.index[key := JournalKey(s.seqNo + 1)], seqNo := s.seqNo + 1)
  }

  lemma EnqueuedSteps(s: State, key: Key, val: Raw)
    requires s.writer == Stored(key, val) && s.seqNo < MAX_SEQ
    ensures Step(Step(Step(s, Claim), WriteEntry), Compact) == Enqueued(s, key, val).(writer := Resting)
  {
  }

  lemma EnqueuedWriter(s: State, w: Writer, key: Key, val: Raw)
    ensures Enqueued(s.(writer := w), key, val).(writer := s.writer) == Enqueued(s, key, val)
  {
  }

  /** A put is the local write and then the journaling. */
  lemma PutSteps(s: State, key: Key, val: Raw)
    requires s.writer.Resting? && !IsJournal(key) && s.seqNo < MAX_SEQ
    ensures IsRun(s, PutRun(key, val))
    ensures After(s, PutRun(key, val)) == Enqueued(s.(local := s.local[key := val]), key, val)
  {
    hide IsRun, After, Enqueued, JournalKey, IsJournal;
    PutRunAfter(s, key, val);
    assert Step(s, Action.Store(key, val)) == s.(local := s.local[key := val], writer := Stored(key, val));
    EnqueuedSteps(Step(s, Action.Store(key, val)), key, val);
    EnqueuedWriter(s.(local := s.local[key := val]), Stored(key, val), key, val);
  }

  /** The store without its journal. */
  ghost function UserPart(data: map<Key, Raw>): map<Key, Raw> {
    map k | k in data && !IsJournal(k) :: data[k]
  }

  ghost predicate JournalIndex(index: map<Key, Key>) {
    forall k :: k in index ==> IsJournal(index[k])
  }

  /** Indexed entries carry numbers handed out already. */
  ghost predicate IndexBelow(index: map<Key, Key>, seqNo: nat) {
    forall k :: k in index ==> SeqOf(index[k]) <= seqNo
  }

  lemma EnqueuedUserPart(s: State, key: Key, val: Raw)
    requires JournalIndex(s.index) && s.seqNo < MAX_SEQ
    ensures UserPart(Enqueued(s, key, val).local) == UserPart(s.local) && JournalIndex(Enqueued(s, key, val).index)
  {
    JournalKeySeq(s.seqNo + 1);
  }

  lemma RecoverNone(data: map<Key, Raw>)
    ensures forall ks: seq<Key> :: ks[..0] == []
    ensures MaxSeq([], 0) == 0 && Reindex(data, []) == map[]
  {
  }

  lemma RecoverOne(data: map<Key, Raw>, ks: seq<Key>, i: nat)
    requires i < |ks|
    ensures MaxSeq(ks[..i + 1], 0) == var n := MaxSeq(ks[..i], 0); if SeqOf(ks[i]) > n then SeqOf(ks[i]) else n
    ensures Reindex(data, ks[..i + 1]) ==
            var index := Reindex(data, ks[..i]);
            if ks[i] in data && data[ks[i]].Entry? then index[data[ks[i]].key := ks[i]] else index
  {
    assert ks[..i + 1][..i] == ks[..i];
  }

  /** What a write-through put does: local, then the remote, or the journal while it is unhealthy. */
  ghost function ThroughState(s: State, closed: bool, healthy: bool, reply: Reply, key: Key, val: Raw): State {
    var stored := s.(local := s.local[key := val]);
    if closed then s
    else if !healthy then Enqueued(stored, key, val)
    else if reply.Failed? then stored
    else stored.(remote := s.remote[key := val])
  }

  /** What a remote-authoritative put does: the remote first, journaled if that fails. */
  ghost function AuthoritativeState(s: State, closed: bool, healthy: bool, reply: Reply, key: Key, val: Raw): State {
    var stored := if closed then s else s.(local := s.local[key := val]);
    var tried := if !healthy || reply.Failed? then stored else stored.(remote := s.remote[key := val]);
    if healthy && reply.Ok? then tried
    else if closed then ClaimOnly(tried, key)
    else Enqueued(tried, key, val)
  }

  lemma IndexWithout(index: map<Key, Key>, seqNo: nat)
    ensures forall k :: JournalIndex(index) ==> JournalIndex(index - {k})
    ensures forall k :: IndexBelow(index, seqNo) ==> IndexBelow(index - {k}, seqNo)
  {
  }

  lemma SortedNone()
    ensures Sorted({}) == []
  {
  }

  /** Where the rest of an undisturbed flush leads. */
  ghost function FlushResult(s: State, replies: seq<Reply>): State
    requires s.flusher.Sending?
  {
    FlushFromIsRun(s, replies);
    After(s, FlushFrom(s, replies))
  }

  lemma FlushStarts(s: State, replies: seq<Reply>)
    requires s.flusher.Asleep?
    ensures IsRun(s, FlushRun(s, replies))
    ensures var s1 := s.(flusher := Sending(Sorted(Pending(s.local))));
            After(s, FlushRun(s, replies)) == FlushResult(s1, replies)
  {
    OneStep(s, FlushStart);
    FlushFromIsRun(Step(s, FlushStart), replies);
    RunConcat(s, [FlushStart], FlushFrom(Step(s, FlushStart), replies));
  }

  lemma FlushUnfolds(s: State, replies: seq<Reply>)
    requires s.flusher.Sending?
    ensures s.flusher.todo == [] ==> FlushResult(s, replies) == s.(flusher := Asleep)
    ensures s.flusher.todo != [] ==>
              var s1 := Step(s, ReadEntry);
              FlushResult(s, replies) ==
              if !s1.flusher.Holding? then FlushResult(s1, replies)
              else if !Next(replies).Ok? then Step(s1, Send(Next(replies)))
              else FlushResult(Sent(s), Rest(replies))
  {
    if s.flusher.todo != [] {
      var s1 := Step(s, ReadEntry);
      if !s1.flusher.Holding? {
        OneStep(s, ReadEntry);
        FlushFromIsRun(s1, replies);
        RunConcat(s, [ReadEntry], FlushFrom(s1, replies));
      } else if !Next(replies).Ok? {
        TwoSteps(s, ReadEntry, Send(Next(replies)));
      } else {
        SentSteps(s);
        FlushFromIsRun(Sent(s), Rest(replies));
        RunConcat(s, [ReadEntry, Send(Ok), DropEntry, Unindex], FlushFrom(Sent(s), Rest(replies)));
      }
    } else {
      OneStep(s, FlushEnd);
    }
  }

  lemma UserPartSet(data: map<Key, Raw>, key: Key, val: Raw)
    requires !IsJournal(key)
    ensures UserPart(data[key := val]) == UserPart(data)[key := val]
    ensures UserPart(data).Keys * {key} == data.Keys * {key}
  {
  }

  lemma {:induction false} FlushFromIsRun(s: State, replies: seq<Reply>)
    requires s.flusher.Sending?
    ensures IsRun(s, FlushFrom(s, replies))
    decreases |s.flusher.todo|
  {
    if s.flusher.todo != [] {
      var s1 := Step(s, ReadEntry);
      if !s1.flusher.Holding? {
        OneStep(s, ReadEntry);
        FlushFromIsRun(s1, replies);
        RunConcat(s, [ReadEntry], FlushFrom(s1, replies));
      } else if !Next(replies).Ok? {
        TwoSteps(s, ReadEntry, Send(Next(replies)));
      } else {
        SentSteps(s);
        FlushFromIsRun(Sent(s), Rest(replies));
        RunConcat(s, [ReadEntry, Send(Ok), DropEntry, Unindex], FlushFrom(Sent(s), Rest(replies)));
      }
    } else {
      OneStep(s, FlushEnd);
    }
  }

  /** With no failing reply, `Flush` on an in-memory store is the flush of the convergence theorem. */
  lemma FlushRunIsFull(s: State)
    requires s.flusher.Asleep?
    ensures FlushRun(s, []) == FullFlush(s)
  {
    FlushFromIsDrain(Step(s, FlushStart));
  }
}
