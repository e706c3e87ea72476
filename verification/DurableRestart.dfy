/** What a restart does to the pending entries. */
module DurableRestart {
  // Nothing on the in-memory form; on the durable form, whose journal recovery cannot see, exactly what the
  // next puts write over.

  import opened Lex
  import opened Stores
  import opened JournalKeys
  import opened WriteBack
  import opened UndisturbedRuns

  type Write = (Key, Raw)

  ghost predicate UserKeys(puts: seq<Write>) {
    forall i :: 0 <= i < |puts| ==> !IsJournal(puts[i].0)
  }

  /** An undisturbed write-back put, as `PutSteps` has it. */
  ghost function PutOne(s: State, p: Write): State {
    Enqueued(s.(local := s.local[p.0 := p.1]), p.0, p.1)
  }

  ghost function PutAll(s: State, puts: seq<Write>): State {
    if puts == [] then s else PutOne(PutAll(s, puts[..|puts| - 1]), puts[|puts| - 1])
  }

  /** The state of a manager built anew over the same store: counter and index are what it lists. */
  ghost function Restarted(s: State, durable: bool): State {
    var ks := Sorted(Selected(s.local, durable, JOURNAL_PREFIX));
    s.(seqNo := MaxSeq(ks, 0), index := Reindex(s.local, ks))
  }

  lemma SelectedJournal(local: Table, durable: bool, n: nat)
    requires n <= MAX_SEQ
    ensures JournalKey(n) in Selected(local, durable, JOURNAL_PREFIX) <==> !durable && JournalKey(n) in local
  {
    JournalKeySeq(n);
    if durable {
      DurableHidesReserved(local, JOURNAL_PREFIX);
    }
  }

  lemma RestartedDurable(s: State)
    ensures Restarted(s, true) == s.(seqNo := 0, index := map[])
  {
    DurableHidesReserved(s.local, JOURNAL_PREFIX);
    SortedNone();
  }

  /** On the in-memory form every pending number is at most the recovered one. */
  lemma RestartedInMemory(s: State, n: nat)
    requires n <= MAX_SEQ && JournalKey(n) in s.local
    ensures n <= Restarted(s, false).seqNo
  {
    SelectedJournal(s.local, false, n);
    JournalKeySeq(n);
    assert JournalKey(n) in Sorted(Selected(s.local, false, JOURNAL_PREFIX));
  }

  /** Recovery never hands out a pending number again, on either form, except on a durable store whose
      entry number 1 is pending: for every store the next number is free if and only if this is not so. */
  lemma NextFreeIff(s: State, durable: bool)
    requires Restarted(s, durable).seqNo < MAX_SEQ
    ensures JournalKey(Restarted(s, durable).seqNo + 1) !in s.local <==> !durable || JournalKey(1) !in s.local
  {
    var n := Restarted(s, durable).seqNo + 1;
    if durable {
      RestartedDurable(s);
    } else if JournalKey(n) in s.local {
      RestartedInMemory(s, n);
    }
  }

  // ----- any number of puts -----

  lemma RestartedBelow(s: State, durable: bool)
    ensures IndexBelow(Restarted(s, durable).index, Restarted(s, durable).seqNo)
    ensures Restarted(s, durable).local == s.local
  {
  }

  ghost predicate SameAt(a: Table, b: Table, k: Key) {
    (k in a <==> k in b) && (k in a ==> a[k] == b[k])
  }

  /** A put does not touch entries above the number it takes. */
  lemma PutOneKeeps(s: State, p: Write, n: nat)
    requires IndexBelow(s.index, s.seqNo) && !IsJournal(p.0) && s.seqNo + 1 < n <= MAX_SEQ
    ensures IndexBelow(PutOne(s, p).index, PutOne(s, p).seqNo) && SameAt(PutOne(s, p).local, s.local, JournalKey(n))
  {
    JournalKeySeq(s.seqNo + 1);
    JournalKeySeq(n);
  }

  lemma {:induction false} PutAllKeeps(s: State, puts: seq<Write>, n: nat)
    requires IndexBelow(s.index, s.seqNo) && UserKeys(puts) && s.seqNo + |puts| < n <= MAX_SEQ
    ensures PutAll(s, puts).seqNo == s.seqNo + |puts| && IndexBelow(PutAll(s, puts).index, PutAll(s, puts).seqNo)
    ensures SameAt(PutAll(s, puts).local, s.local, JournalKey(n))
  {
    hide IndexBelow;
    if puts != [] {
      PutAllKeeps(s, puts[..|puts| - 1], n);
      PutOneKeeps(PutAll(s, puts[..|puts| - 1]), puts[|puts| - 1], n);
    }
  }

  /** Put number `i` writes its entry over one that is there already. */
  ghost predicate Overwrites(s: State, puts: seq<Write>, i: nat)
    requires i < |puts|
  {
    JournalKey(PutAll(s, puts[..i]).seqNo + 1) in PutAll(s, puts[..i]).local
  }

  /** Put number `i` after a restart takes number `i + 1` above the recovered one, finds there what was
      there at the restart, and leaves its own entry. */
  lemma DurableRestartOverwrites(s: State, durable: bool, puts: seq<Write>, i: nat)
    requires UserKeys(puts) && i < |puts| && Restarted(s, durable).seqNo + |puts| <= MAX_SEQ
    ensures var r := Restarted(s, durable);
            var jk := JournalKey(r.seqNo + i + 1);
            && (Overwrites(r, puts, i) <==> jk in s.local)
            && SameAt(PutAll(r, puts[..i]).local, s.local, jk)
            && jk in PutAll(r, puts[..i + 1]).local
            && PutAll(r, puts[..i + 1]).local[jk] == Entry(puts[i].0, puts[i].1)
  {
    hide Restarted, IndexBelow, Overwrites, PutAll, JournalKey, UserKeys, SameAt;
    RestartedBelow(s, durable);
    PutNumber(Restarted(s, durable), puts, i);
  }

  lemma PutNumber(r: State, puts: seq<Write>, i: nat)
    requires IndexBelow(r.index, r.seqNo) && UserKeys(puts) && i < |puts| && r.seqNo + |puts| <= MAX_SEQ
    ensures var jk := JournalKey(r.seqNo + i + 1);
            && (Overwrites(r, puts, i) <==> jk in r.local)
            && SameAt(PutAll(r, puts[..i]).local, r.local, jk)
            && jk in PutAll(r, puts[..i + 1]).local
            && PutAll(r, puts[..i + 1]).local[jk] == Entry(puts[i].0, puts[i].1)
  {
    var before := PutAll(r, puts[..i]);
    assert puts[..i + 1][..i] == puts[..i];
    assert PutAll(r, puts[..i + 1]) == PutOne(before, puts[i]);
    hide IndexBelow, PutAll, PutOne, JournalKey;
    PutAllKeeps(r, puts[..i], r.seqNo + i + 1);
    WritesEntry(before, puts[i]);
  }

  lemma WritesEntry(s: State, p: Write)
    requires IndexBelow(s.index, s.seqNo) && !IsJournal(p.0) && s.seqNo < MAX_SEQ
    ensures var jk := JournalKey(s.seqNo + 1);
            jk in PutOne(s, p).local && PutOne(s, p).local[jk] == Entry(p.0, p.1)
  {
    JournalKeySeq(s.seqNo + 1);
  }

  ghost predicate SomeOverwrite(s: State, puts: seq<Write>) {
    exists i :: 0 <= i < |puts| && Overwrites(s, puts, i)
  }

  /** After a restart some put overwrites an entry if and only if the store is durable and an entry was
      pending whose number is at most the number of these puts. */
  lemma RestartOverwritesIff(s: State, durable: bool, puts: seq<Write>)
    requires UserKeys(puts) && Restarted(s, durable).seqNo + |puts| <= MAX_SEQ
    ensures SomeOverwrite(Restarted(s, durable), puts) <==>
            durable && exists n: nat :: 1 <= n <= |puts| && JournalKey(n) in s.local
  {
    var r := Restarted(s, durable);
    if durable {
      RestartedDurable(s);
    }
    hide Restarted, Overwrites;
    forall i | 0 <= i < |puts|
      ensures Overwrites(r, puts, i) <==> durable && JournalKey(i + 1) in s.local
    {
      DurableRestartOverwrites(s, durable, puts, i);
      if !durable && JournalKey(r.seqNo + i + 1) in s.local {
        RestartedInMemory(s, r.seqNo + i + 1);
      }
    }
    if n: nat :| 1 <= n <= |puts| && JournalKey(n) in s.local {
      assert Overwrites(r, puts, n - 1) <==> durable;
    }
  }

  // ----- states built from puts -----

  /** Put number `i` is the last one of its key. */
  ghost predicate LastOfKey(puts: seq<Write>, i: nat) {
    i < |puts| && forall j :: i < j < |puts| ==> puts[j].0 != puts[i].0
  }

  /** Nothing journaled, nothing indexed. */
  ghost predicate Unused(s: State) {
    s.seqNo == 0 && s.index == map[] && forall k :: k in s.local ==> !IsJournal(k)
  }

  /** The index after `puts` holds, for each key, the entry of its last put. */
  ghost predicate IndexesLast(s: State, puts: seq<Write>) {
    && (forall i :: 0 <= i < |puts| && LastOfKey(puts, i) ==>
         puts[i].0 in s.index && s.index[puts[i].0] == JournalKey(i + 1))
    && (forall k :: k in s.index ==> exists i :: 0 <= i < |puts| && LastOfKey(puts, i) && puts[i].0 == k)
  }

  lemma LastOfKeySnoc(puts: seq<Write>, p: Write, i: nat)
    ensures LastOfKey(puts + [p], i) <==> i == |puts| || (LastOfKey(puts, i) && puts[i].0 != p.0)
  {
    if i < |puts| && LastOfKey(puts + [p], i) {
      assert (puts + [p])[|puts|] == p;
      forall j | i < j < |puts| ensures puts[j].0 != puts[i].0 {
        assert (puts + [p])[j] == puts[j];
      }
    }
  }

  lemma IndexesLastStep(s: State, puts: seq<Write>, p: Write)
    requires IndexesLast(s, puts) && s.seqNo == |puts|
    ensures IndexesLast(PutOne(s, p), puts + [p])
  {
    var all, s' := puts + [p], PutOne(s, p);
    assert s'.index == s.index[p.0 := JournalKey(|puts| + 1)];
    hide PutOne, JournalKey;
    forall i | 0 <= i < |all| && LastOfKey(all, i)
      ensures all[i].0 in s'.index && s'.index[all[i].0] == JournalKey(i + 1)
    {
      LastOfKeySnoc(puts, p, i);
    }
    forall k | k in s'.index ensures exists i :: 0 <= i < |all| && LastOfKey(all, i) && all[i].0 == k {
      if k == p.0 {
        LastOfKeySnoc(puts, p, |puts|);
      } else {
        var i :| 0 <= i < |puts| && LastOfKey(puts, i) && puts[i].0 == k;
        LastOfKeySnoc(puts, p, i);
        assert all[i].0 == k;
      }
    }
  }

  /** After puts into an unused store, entry `n` is pending if and only if put `n` was the last of its key. */
  lemma {:induction false} PendingAfterPuts(s: State, puts: seq<Write>, n: nat)
    requires Unused(s) && UserKeys(puts) && |puts| <= MAX_SEQ && 1 <= n <= MAX_SEQ
    ensures PutAll(s, puts).seqNo == |puts| && IndexesLast(PutAll(s, puts), puts)
    ensures JournalKey(n) in PutAll(s, puts).local <==> LastOfKey(puts, n - 1)
  {
    JournalKeySeq(n);
    if puts != [] {
      var init, p := puts[..|puts| - 1], puts[|puts| - 1];
      var s1 := PutAll(s, init);
      assert puts == init + [p] && UserKeys(init) && !IsJournal(p.0);
      assert PutAll(s, puts) == PutOne(s1, p) && PutOne(s1, p).seqNo == s1.seqNo + 1;
      hide Unused, PutAll, PutOne, IndexesLast, LastOfKey, UserKeys, JournalKey, IsJournal;
      PendingAfterPuts(s, init, n);
      IndexesLastStep(s1, init, p);
      LastOfKeySnoc(init, p, n - 1);
      StaleEntry(s1, init, p, n);
    }
  }

  lemma PutOnePending(s: State, p: Write, jk: Key)
    requires IsJournal(jk) && !IsJournal(p.0)
    ensures jk in PutOne(s, p).local <==>
            (jk == JournalKey(s.seqNo + 1) || jk in s.local) && !(p.0 in s.index && s.index[p.0] == jk)
  {
  }

  /** A put drops exactly the entry of the last earlier put of its key, and adds its own. */
  lemma StaleEntry(s: State, puts: seq<Write>, p: Write, n: nat)
    requires IndexesLast(s, puts) && s.seqNo == |puts| < MAX_SEQ && !IsJournal(p.0) && 1 <= n <= MAX_SEQ
    requires JournalKey(n) in s.local <==> LastOfKey(puts, n - 1)
    ensures JournalKey(n) in PutOne(s, p).local <==>
            n == |puts| + 1 || (LastOfKey(puts, n - 1) && puts[n - 1].0 != p.0)
  {
    JournalKeySeq(n);
    PutOnePending(s, p, JournalKey(n));
    JournalKeyOrder(n, |puts| + 1);
    hide PutOne, JournalKey, IsJournal;
    if p.0 in s.index {
      var i :| 0 <= i < |puts| && LastOfKey(puts, i) && puts[i].0 == p.0;
      JournalKeyOrder(n, i + 1);
      assert s.index[p.0] == JournalKey(i + 1);
    }
    if n <= |puts| && LastOfKey(puts, n - 1) && puts[n - 1].0 == p.0 {
      assert p.0 in s.index && s.index[p.0] == JournalKey(n);
    }
  }

  /** Puts, a restart, and puts, on an unused durable store: a pending entry is overwritten if and only if
      one of the first puts was the last of its key and is numbered no higher than there are later puts.
      As many later puts as earlier ones always overwrite one. */
  lemma PutsRestartPuts(s: State, first: seq<Write>, second: seq<Write>)
    requires Unused(s) && UserKeys(first) && UserKeys(second) && |first| <= MAX_SEQ && |second| <= MAX_SEQ
    ensures var r := Restarted(PutAll(s, first), true);
            && (SomeOverwrite(r, second) <==> exists i :: 0 <= i < |second| && LastOfKey(first, i))
            && (first != [] && |second| >= |first| ==> SomeOverwrite(r, second))
  {
    var s1 := PutAll(s, first);
    RestartedDurable(s1);
    RestartOverwritesIff(s1, true, second);
    forall n: nat | 1 <= n <= |second| ensures JournalKey(n) in s1.local <==> LastOfKey(first, n - 1) {
      PendingAfterPuts(s, first, n);
    }
    hide SomeOverwrite, LastOfKey;
    if i :| 0 <= i < |second| && LastOfKey(first, i) {
      assert JournalKey(i + 1) in s1.local <==> LastOfKey(first, i);
    }
    if first != [] && |second| >= |first| {
      LastIsLast(first);
      assert JournalKey(|first|) in s1.local <==> LastOfKey(first, |first| - 1);
    }
  }

  lemma LastIsLast(puts: seq<Write>)
    requires puts != []
    ensures LastOfKey(puts, |puts| - 1)
  {
  }
}
