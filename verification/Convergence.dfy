/** What flushing the write-back journal brings about, whatever happened before. */
module Convergence {
  import opened Lex
  import opened Stores
  import opened JournalKeys
  import opened WriteBack
  import opened FlusherSteps

  /** The actions of a flush, from its snapshot on, in which every remote write succeeds. */
  ghost function Drain(s: State): seq<Action>
    requires s.flusher.Sending?
    decreases |s.flusher.todo|
  {
    if s.flusher.todo == [] then [FlushEnd]
    else
      var s1 := Step(s, ReadEntry);
      if s1.flusher.Holding? then
        var one := [ReadEntry, Send(Ok), DropEntry, Unindex];
        one + Drain(Step(Step(Step(s1, Send(Ok)), DropEntry), Unindex))
      else
        [ReadEntry] + Drain(s1)
  }

  /** A fully successful flush. */
  ghost function FullFlush(s: State): seq<Action>
    requires s.flusher.Asleep?
  {
    [FlushStart] + Drain(Step(s, FlushStart))
  }

  /** What a flush does not touch. */
  ghost predicate SameButFlushed(s: State, s': State) {
    && s'.latest == s.latest && s'.completed == s.completed && s'.torn == s.torn
    && s'.unjournaled == s.unjournaled && s'.writer == s.writer && s'.seqNo == s.seqNo
    && forall k :: !IsJournal(k) ==> (k in s'.local <==> k in s.local) && (k in s.local ==> s'.local[k] == s.local[k])
  }

  lemma OneStep(s: State, a: Action)
    requires Enabled(s, a)
    ensures IsRun(s, [a]) && After(s, [a]) == Step(s, a)
  {
    hide Enabled, Step;
    assert [a][1..] == [];
  }

  lemma TwoSteps(s: State, a: Action, b: Action)
    requires Enabled(s, a) && Enabled(Step(s, a), b)
    ensures IsRun(s, [a, b]) && After(s, [a, b]) == Step(Step(s, a), b)
  {
    OneStep(s, a);
    OneStep(Step(s, a), b);
    RunConcat(s, [a], [b]);
    assert [a] + [b] == [a, b];
  }

  ghost predicate AllListed(local: Table, todo: seq<Key>) {
    forall j :: j in local && IsJournal(j) ==> j in todo
  }

  /** Reading, sending, dropping and unindexing one entry. */
  ghost function Sent(s: State): State
    requires s.flusher.Sending? && s.flusher.todo != [] && Step(s, ReadEntry).flusher.Holding?
  {
    Step(Step(Step(Step(s, ReadEntry), Send(Ok)), DropEntry), Unindex)
  }

  lemma SentSteps(s: State)
    requires s.flusher.Sending? && s.flusher.todo != [] && Step(s, ReadEntry).flusher.Holding?
    ensures IsRun(s, [ReadEntry, Send(Ok), DropEntry, Unindex])
    ensures After(s, [ReadEntry, Send(Ok), DropEntry, Unindex]) == Sent(s)
  {
    var s1 := Step(s, ReadEntry);
    var s2 := Step(s1, Send(Ok));
    TwoSteps(s, ReadEntry, Send(Ok));
    TwoSteps(s2, DropEntry, Unindex);
    RunConcat(s, [ReadEntry, Send(Ok)], [DropEntry, Unindex]);
    assert [ReadEntry, Send(Ok)] + [DropEntry, Unindex] == [ReadEntry, Send(Ok), DropEntry, Unindex];
  }

  /** Reading and sending one entry, spelled out. */
  lemma ReadExplicit(s: State, jk: Key, rest: seq<Key>)
    requires s.flusher == Sending([jk] + rest)
    ensures var s1 := Step(s, ReadEntry);
            if jk in s.local && s.local[jk].Entry? then
              var k, v := s.local[jk].key, s.local[jk].val;
              && s1 == s.(flusher := Holding(jk, k, v, rest))
              && Sent(s) == s.(remote := s.remote[k := v], local := s.local - {jk}, flusher := Sending(rest),
                               index := if k in s.index && s.index[k] == jk then s.index - {k} else s.index)
              && Step(s1, Send(Failed)) == s.(flusher := Asleep)
              && Step(s1, Send(FailedButApplied)) == s.(remote := s.remote[k := v], flusher := Asleep)
            else s1 == s.(local := s.local - {jk}, flusher := Sending(rest))
  {
    assert ([jk] + rest)[1..] == rest;
  }

  /** What one round of the flush leaves of the local tier and the work list. */
  lemma RoundTables(s: State)
    requires Inv(s) && s.flusher.Sending? && s.flusher.todo != [] && AllListed(s.local, s.flusher.todo)
    ensures var s1 := Step(s, ReadEntry);
            var s' := if s1.flusher.Holding? then Sent(s) else s1;
            && SameButFlushed(s, s') && s'.flusher == Sending(s.flusher.todo[1..])
            && AllListed(s'.local, s.flusher.todo[1..])
  {
    hide Inv, Step, Sent, Less, IsJournal;
    var jk, rest := s.flusher.todo[0], s.flusher.todo[1..];
    InHand(s, jk);
    assert s.flusher.todo == [jk] + rest;
    ReadExplicit(s, jk, rest);
  }

  /** Sending the first entry of the work list. */
  lemma SendFirst(s: State) returns (s': State, one: seq<Action>)
    requires Inv(s) && s.flusher.Sending? && s.flusher.todo != [] && AllListed(s.local, s.flusher.todo)
    ensures IsRun(s, one) && After(s, one) == s' && Inv(s') && SameButFlushed(s, s')
    ensures s'.flusher == Sending(s.flusher.todo[1..]) && AllListed(s'.local, s.flusher.todo[1..])
    ensures Drain(s) == one + Drain(s')
  {
    hide Inv, IsRun, After, AllListed, SameButFlushed;
    RoundTables(s);
    var s1 := Step(s, ReadEntry);
    if s1.flusher.Holding? {
      one, s' := [ReadEntry, Send(Ok), DropEntry, Unindex], Sent(s);
      SentSteps(s);
      RunKeepsInv(s, one);
    } else {
      one, s' := [ReadEntry], s1;
      StepKeepsInv(s, ReadEntry);
      OneStep(s, ReadEntry);
    }
  }

  /** A successful flush that nothing interrupts empties the journal. */
  lemma {:induction false} DrainEmpties(s: State)
    requires Inv(s) && s.flusher.Sending? && AllListed(s.local, s.flusher.todo)
    ensures IsRun(s, Drain(s))
    ensures var s' := After(s, Drain(s));
            Inv(s') && SameButFlushed(s, s') && s'.flusher.Asleep? && Pending(s'.local) == {}
    decreases |s.flusher.todo|
  {
    hide Inv;
    if s.flusher.todo == [] {
      OneStep(s, FlushEnd);
      StepKeepsInv(s, FlushEnd);
    } else {
      var s1, one := SendFirst(s);
      DrainEmpties(s1);
      RunConcat(s, one, Drain(s1));
    }
  }

  lemma FlushEmpties(s: State)
    requires Inv(s) && s.flusher.Asleep?
    ensures IsRun(s, FullFlush(s))
    ensures var s' := After(s, FullFlush(s));
            Inv(s') && SameButFlushed(s, s') && s'.flusher.Asleep? && Pending(s'.local) == {}
  {
    hide Inv, Drain;
    var s1 := Step(s, FlushStart);
    OneStep(s, FlushStart);
    StepKeepsInv(s, FlushStart);
    forall j | j in s.local && IsJournal(j) ensures j in s1.flusher.todo {
      assert j in Pending(s.local);
    }
    DrainEmpties(s1);
    RunConcat(s, [FlushStart], Drain(s1));
  }

  /** Whenever nothing is pending, the remote holds the last journaled value of every key. */
  lemma NothingPendingMeansSynced(s: State, k: Key)
    requires Inv(s) && Pending(s.local) == {} && k in s.latest
    ensures k in s.remote && s.remote[k] == s.latest[k]
  {
    assert Safe(s.local, s.latest, s.remote, k);
    forall j ensures !IsEntryOf(s.local, k, j) {
      assert IsEntryOf(s.local, k, j) ==> j in Pending(s.local);
    }
  }

  /** The put of `k` that is going on has written the local tier but not the journal. */
  predicate BeforeJournal(s: State, k: Key) {
    (s.writer.Stored? || s.writer.Claimed?) && s.writer.key == k
  }

  /** The put of `k` that is going on has written the journal but not returned. */
  predicate BeforeReturn(s: State, k: Key) {
    s.writer.Journaled? && s.writer.key == k
  }

  predicate HasValue(t: Table, k: Key, v: Raw) {
    k in t && t[k] == v
  }

  /** Write-back convergence.  Take any run of puts, failing, partial and successful flushes, and
      crashes between any two store writes.  After one more fully successful flush the remote
      holds the last journaled value of every key; this is the last completed put unless a crash
      cut the last put of the key off after its journal write; and it is the local value unless a
      crash (or the put still going on) stopped between the local write and the journal write. */
  lemma Converges(s0: State, run: seq<Action>)
    requires Initial(s0) && IsRun(s0, run) && After(s0, run).flusher.Asleep?
    ensures var s := After(s0, run);
            IsRun(s, FullFlush(s)) && Pending(After(s, FullFlush(s)).local) == {}
    ensures var s := After(s0, run);
            var s' := After(s, FullFlush(s));
            && (forall k :: k in s.latest ==> HasValue(s'.remote, k, s.latest[k]))
            && (forall k :: k in s.completed && k !in s.torn && !BeforeReturn(s, k) ==>
                  HasValue(s'.remote, k, s.completed[k]))
            && (forall k :: k in s.local && !IsJournal(k) && k !in s.unjournaled && !BeforeJournal(s, k) ==>
                  HasValue(s'.remote, k, s.local[k]) && HasValue(s'.local, k, s.local[k]))
  {
    hide IsRun, After, FullFlush, Enabled, Step;
    InitialInv(s0);
    RunKeepsInv(s0, run);
    var s := After(s0, run);
    FlushEmpties(s);
    var s' := After(s, FullFlush(s));
    forall k | k in s.latest ensures HasValue(s'.remote, k, s.latest[k]) {
      NothingPendingMeansSynced(s', k);
    }
  }

  lemma NextFresh(s: State)
    requires Inv(s) && s.seqNo < MAX_SEQ
    ensures JournalKey(s.seqNo + 1) !in s.local
  {
    hide GoodIndex, GoodWriter, GoodWork, GoodFlusher, GoodHistory, GoodLocal, AllSafe, Numbered;
    FreshKey(s.seqNo);
  }

  /** In every reachable state, right after a recovery included, the next number is not pending. */
  lemma NextNumberFresh(s0: State, run: seq<Action>)
    requires Initial(s0) && IsRun(s0, run) && After(s0, run).seqNo < MAX_SEQ
    ensures JournalKey(After(s0, run).seqNo + 1) !in After(s0, run).local
  {
    hide Inv, IsRun, After;
    InitialInv(s0);
    RunKeepsInv(s0, run);
    NextFresh(After(s0, run));
  }

  /** A crash right after the local write: the value stays local for good, flushes do not carry it. */
  lemma LocalOnlyAfterCrash(s0: State, k: Key, v: Raw)
    requires Initial(s0) && !IsJournal(k) && k !in s0.remote
    ensures IsRun(s0, [Action.Store(k, v), Crash])
    ensures var s := After(s0, [Action.Store(k, v), Crash]);
            && s.flusher.Asleep? && IsRun(s, FullFlush(s))
            && HasValue(After(s, FullFlush(s)).local, k, v) && k !in After(s, FullFlush(s)).remote
  {
    var s2 := Step(Step(s0, Action.Store(k, v)), Crash);
    TwoSteps(s0, Action.Store(k, v), Crash);
    assert Pending(s2.local) == {};
    assert Step(s2, FlushStart).flusher.todo == [];
    TwoSteps(s2, FlushStart, FlushEnd);
    assert FullFlush(s2) == [FlushStart, FlushEnd];
  }
}
