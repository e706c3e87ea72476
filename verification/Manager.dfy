/** The tiered memory manager: its methods carry out the steps of the write-back protocol and the
    reads of the tier model on mutable stores. */
module Managers {
  import opened Lex
  import opened Options
  import opened Stores
  import opened JournalKeys
  import opened Scratches
  import opened WriteBack
  import opened Convergence
  import opened UndisturbedRuns
  import opened WriteModes
  import opened Tiers

  /** The remote tier: an arbitrary map whose answers may fail, as `replies` says, in order. */
  class Remote {
    var data: map<Key, Raw>
    var healthy: bool
    var replies: seq<Reply>

    constructor (data: map<Key, Raw>, healthy: bool, replies: seq<Reply>)
      ensures this.data == data && this.healthy == healthy && this.replies == replies
    {
      this.data, this.healthy, this.replies := data, healthy, replies;
    }

    method Get(key: Key) returns (r: Option<Raw>, ok: bool)
      modifies this`replies
      ensures replies == Rest(old(replies)) && ok == Next(old(replies)).Ok?
      ensures r == if ok && key in data then Some(data[key]) else None
    {
      ok := Next(replies).Ok?;
      replies := Rest(replies);
      r := if ok && key in data then Some(data[key]) else None;
    }

    /** A failing write may or may not have been applied. */
    method Put(key: Key, val: Raw) returns (ok: bool)
      modifies this`replies, this`data
      ensures replies == Rest(old(replies)) && ok == Next(old(replies)).Ok?
      ensures data == if Next(old(replies)).Failed? then old(data) else old(data)[key := val]
    {
      ok := Next(replies).Ok?;
      if !Next(replies).Failed? {
        data := data[key := val];
      }
      replies := Rest(replies);
    }
  }

  /** Sequence counter and by-key index, read back from the store's journal. */
  method Recover(local: Store) returns (seqNo: nat, index: map<Key, Key>)
    ensures var ks := if local.closed then [] else Sorted(Selected(local.data, local.durable, JOURNAL_PREFIX));
            seqNo == MaxSeq(ks, 0) && index == Reindex(local.data, ks)
    ensures JournalIndex(index) && IndexBelow(index, seqNo)
  {
    hide Sorted, SeqOf, Reindex, MaxSeq;
    seqNo, index := 0, map[];
    var ks := local.Keys(JOURNAL_PREFIX);
    RecoverNone(local.data);
    for i := 0 to |ks|
      invariant seqNo == MaxSeq(ks[..i], 0) && index == Reindex(local.data, ks[..i])
    {
      var jk := ks[i];
      RecoverOne(local.data, ks, i);
      assert jk in Selected(local.data, local.durable, JOURNAL_PREFIX) && !local.closed;
      if SeqOf(jk) > seqNo {
        seqNo := SeqOf(jk);
      }
      var entry := local.GetRaw(jk);
      if entry.Some? && entry.value.Entry? {
        index := index[entry.value.key := jk];
      }
    }
    assert ks[..|ks|] == ks;
    forall k | k in index ensures IsJournal(index[k]) {
      assert index[k] in Selected(local.data, local.durable, JOURNAL_PREFIX);
    }
  }

  class Manager {
    const scratch: Scratch<Cached>
    const local: Store
    const remote: Remote
    const policy: Policy
    var seqNo: nat
    var index: map<Key, Key>
    ghost var latest: map<Key, Raw>
    ghost var completed: map<Key, Raw>
    ghost var torn: set<Key>
    ghost var unjournaled: set<Key>

    ghost predicate Valid()
      reads this, scratch
    {
      scratch.Valid() && JournalIndex(index) && IndexBelow(index, seqNo)
    }

    /** The protocol state while no call is in progress. */
    ghost function View(): State
      reads this, local, remote
    {
      State(local.data, index, seqNo, remote.data, Resting, Asleep, latest, completed, torn, unjournaled)
    }

    /** The tier state: scratch, the store without its journal, remote. */
    ghost function Mem(): Memory
      reads this, scratch, scratch.ll, local, remote
    {
      Memory(scratch.Items(), scratch.cap, UserPart(local.data), local.closed, remote.data, remote.healthy)
    }

    // ----- recovery -----

    /** Rebuilds the sequence counter and the by-key index from the store's journal. */
    constructor (scratch: Scratch<Cached>, local: Store, remote: Remote, policy: Policy, ghost was: State)
      requires scratch.Valid() && was.local == local.data && was.remote == remote.data
      ensures Valid() && this.scratch == scratch && this.local == local && this.remote == remote
        && this.policy == policy
      ensures var ks := if local.closed then [] else Sorted(Selected(local.data, local.durable, JOURNAL_PREFIX));
              seqNo == MaxSeq(ks, 0) && index == Reindex(local.data, ks)
      ensures !local.closed && !local.durable ==> View() == Step(was, Crash)
    {
      this.scratch, this.local, this.remote, this.policy := scratch, local, remote, policy;
      latest, completed := was.latest, was.completed;
      torn := if was.writer.Journaled? then was.torn + {was.writer.key} else was.torn;
      unjournaled := if was.writer.Stored? || was.writer.Claimed? then was.unjournaled + {was.writer.key}
        else was.unjournaled;
      seqNo, index := 0, map[];
      new;
      seqNo, index := Recover(local);
    }

    // ----- the journal -----

    /** Queues a remote write: index under a fresh number, write the entry, drop the superseded one. */
    method EnqueueJournal(key: Key, val: Raw) returns (ok: bool)
      requires Valid() && !IsJournal(key) && seqNo < MAX_SEQ
      modifies this, local`data
      ensures Valid() && ok == !local.closed
      ensures View() == if ok then Enqueued(old(View()), key, val) else ClaimOnly(old(View()), key)
      ensures ok ==> Queued(local.data, index, key, val)
      ensures ok && old(OnlyIndexed(local.data, index, key)) ==> OnlyIndexed(local.data, index, key)
      ensures ok && key in old(local.data) ==> HasValue(local.data, key, old(local.data)[key])
    {
      hide Scratches.Linked, JournalKey, OnlyIndexed, Queued, HasValue, JournalIndex, IndexBelow, IsJournal, UserPart,
        HasPrefix, SeqOf;
      ghost var s := View();
      EnqueuedUserPart(s, key, val);
      EnqueuedIsQueued(s, key, val);
      seqNo := seqNo + 1;
      var stale := WriteBack.Lookup(index, key);
      var jk := JournalKey(seqNo);
      index := index[key := jk];
      ok := local.SetRaw(jk, Entry(key, val));
      if !ok {
        return;
      }
      latest := latest[key := val];
      unjournaled := unjournaled - {key};
      if stale.Some? {
        var _ := local.Delete(stale.value);
      }
      completed := completed[key := val];
      torn := torn - {key};
    }

    // ----- reads -----

    method Remember(key: Key, v: Cached, ttl: int, now: Time)
      requires Valid()
      modifies scratch, scratch.ll
      ensures Valid()
      ensures forall i :: 0 <= i < |scratch.ll| ==> scratch.ll[i] in old(scratch.ll) || fresh(scratch.ll[i])
      ensures Mem() == Cache(old(Mem()), key, v, ttl, now)
    {
      hide Linked;
      scratch.Set(key, v, ttl, now);
    }

    method Recall(key: Key, now: Time) returns (r: Option<Cached>)
      requires Valid()
      modifies scratch
      ensures Valid()
      ensures forall i :: 0 <= i < |scratch.ll| ==> scratch.ll[i] in old(scratch.ll) || fresh(scratch.ll[i])
      ensures r == GetValue(old(Mem()).items, key, now)
      ensures Mem() == old(Mem()).(items := GetItems(old(Mem()).items, key, now))
    {
      hide Linked;
      r := scratch.Get(key, now);
    }

    method GetCached(key: Key, c: Class, now: Time) returns (a: Answer)
      requires Valid() && !IsJournal(key)
      modifies scratch, scratch.ll
      ensures Valid()
      ensures forall i :: 0 <= i < |scratch.ll| ==> scratch.ll[i] in old(scratch.ll) || fresh(scratch.ll[i])
      ensures (Mem(), a) == Tiers.GetCached(old(Mem()), key, c, now)
    {
      hide Linked, GetItems, GetValue, SetItem;
      var v := Recall(key, now);
      if v.Some? && v.value.Json? {
        return Hit(v.value.raw, FromScratch, false, 0.8);
      }
      var raw := local.GetRaw(key);
      if raw.Some? {
        Remember(key, Json(raw.value), c.ttl, now);
        var current := c.authority.AuthLocal?;
        return Hit(raw.value, FromLocal, current, Confidence(current));
      }
      a := Miss;
    }

    method GetRemote(key: Key, c: Class, now: Time) returns (a: Answer)
      requires Valid() && !IsJournal(key)
      modifies scratch, scratch.ll, local`data, remote`replies
      ensures Valid()
      ensures forall i :: 0 <= i < |scratch.ll| ==> scratch.ll[i] in old(scratch.ll) || fresh(scratch.ll[i])
      ensures (Mem(), a) == Tiers.GetRemote(old(Mem()), key, c, now, Next(old(remote.replies)))
    {
      hide Linked, GetItems, GetValue, SetItem;
      if !remote.healthy {
        return Miss;
      }
      var raw, ok := remote.Get(key);
      if !ok {
        return RemoteError;
      }
      if raw.None? {
        if c.ttl > 0 {
          Remember(NegKey(key), Tombstone, c.ttl, now);
        }
        return Miss;
      }
      UserPartSet(local.data, key, raw.value);
      var _ := local.SetRaw(key, raw.value);
      Remember(key, Json(raw.value), c.ttl, now);
      a := Hit(raw.value, FromRemote, true, 1.0);
    }

    method GetCascade(key: Key, c: Class, now: Time, bypass: bool) returns (a: Answer)
      requires Valid() && !IsJournal(key)
      modifies scratch, scratch.ll, local`data, remote`replies
      ensures Valid()
      ensures forall i :: 0 <= i < |scratch.ll| ==> scratch.ll[i] in old(scratch.ll) || fresh(scratch.ll[i])
      ensures (Mem(), a) == Tiers.GetCascade(old(Mem()), key, c, now, Next(old(remote.replies)), bypass)
    {
      hide Linked, GetItems, GetValue, SetItem, Tiers.GetCached, Tiers.GetRemote;
      if !bypass {
        var negative := Recall(NegKey(key), now);
        if negative.Some? {
          return Miss;
        }
        a := GetCached(key, c, now);
        if a.Hit? {
          return;
        }
      }
      a := GetRemote(key, c, now);
      if !a.Miss? {
        return;
      }
      if bypass {
        a := GetCached(key, c, now);
      }
    }

    /** Resolves the policy and reads. */
    method Get(key: Key, hint: Option<Hint>, now: Time) returns (a: Answer)
      requires Valid() && !IsJournal(key)
      modifies scratch, scratch.ll, local`data, remote`replies
      ensures Valid()
      ensures forall i :: 0 <= i < |scratch.ll| ==> scratch.ll[i] in old(scratch.ll) || fresh(scratch.ll[i])
      ensures var c := policy.Resolve(key, hint);
              var reply := Next(old(remote.replies));
              (Mem(), a) ==
              match c.read
              case LocalOnly => Tiers.GetCached(old(Mem()), key, c, now)
              case RemoteOnly => Tiers.GetRemote(old(Mem()), key, c, now, reply)
              case CascadeFresh => Tiers.GetCascade(old(Mem()), key, c, now, reply, true)
              case CascadeCached => Tiers.GetCascade(old(Mem()), key, c, now, reply, false)
    {
      hide Linked, Tiers.GetCached, Tiers.GetRemote, Tiers.GetCascade;
      var c := policy.Resolve(key, hint);
      match c.read
      case LocalOnly => a := GetCached(key, c, now);
      case RemoteOnly => a := GetRemote(key, c, now);
      case CascadeFresh => a := GetCascade(key, c, now, true);
      case CascadeCached => a := GetCascade(key, c, now, false);
    }

    // ----- writes -----

    /** Scratch only. */
    method PutAround(key: Key, val: Raw, c: Class, now: Time)
      requires Valid()
      modifies scratch, scratch.ll
      ensures Valid()
      ensures forall i :: 0 <= i < |scratch.ll| ==> scratch.ll[i] in old(scratch.ll) || fresh(scratch.ll[i])
      ensures Mem() == Cache(old(Mem()), key, Json(val), c.ttl, now)
    {
      Remember(key, Json(val), c.ttl, now);
    }

    /** Local now, remote through the journal: the four protocol steps, undisturbed. */
    method PutBehind(key: Key, val: Raw, c: Class, now: Time) returns (ok: bool)
      requires Valid() && !IsJournal(key) && seqNo < MAX_SEQ
      modifies this, scratch, scratch.ll, local`data
      ensures Valid()
      ensures forall i :: 0 <= i < |scratch.ll| ==> scratch.ll[i] in old(scratch.ll) || fresh(scratch.ll[i])
      ensures ok == !local.closed
      ensures Mem() == PutBack(old(Mem()), key, val, c.ttl, now)
      ensures IsRun(old(View()), PutRun(key, val))
      ensures View() == if ok then After(old(View()), PutRun(key, val)) else old(View())
      ensures ok ==> HasValue(local.data, key, val) && Queued(local.data, index, key, val)
      ensures ok && old(OnlyIndexed(local.data, index, key)) ==> OnlyIndexed(local.data, index, key)
    {
      hide Linked, GetItems, SetItem, IsRun, After, JournalIndex, JournalKey, UserPart, Cache, OnlyIndexed, Queued,
        IndexBelow, HasValue, Enqueued;
      ghost var s := View();
      StoredOnlyIndexed(local.data, index, key, val);
      PutSteps(s, key, val);
      UserPartSet(local.data, key, val);
      ok := local.SetRaw(key, val);
      if !ok {
        return;
      }
      Remember(key, Json(val), c.ttl, now);
      EnqueuedUserPart(View(), key, val);
      ok := EnqueueJournal(key, val);
    }

    /** Local, then the remote at once; journaled instead while the remote is unhealthy. */
    method PutThrough(key: Key, val: Raw, c: Class, now: Time) returns (ok: bool)
      requires Valid() && !IsJournal(key) && seqNo < MAX_SEQ
      modifies this, scratch, scratch.ll, local`data, remote`data, remote`replies
      ensures Valid()
      ensures forall i :: 0 <= i < |scratch.ll| ==> scratch.ll[i] in old(scratch.ll) || fresh(scratch.ll[i])
      ensures View() == ThroughState(old(View()), local.closed, remote.healthy, Next(old(remote.replies)), key, val)
      ensures ok == (!local.closed && (remote.healthy ==> Next(old(remote.replies)).Ok?))
      ensures Mem() == PutBack(old(Mem()), key, val, c.ttl, now).(remote := remote.data)
      ensures !local.closed ==> HasValue(local.data, key, val)
      ensures ok ==> if remote.healthy then HasValue(remote.data, key, val) else Queued(local.data, index, key, val)
      ensures ok && old(OnlyIndexed(local.data, index, key)) ==> OnlyIndexed(local.data, index, key)
    {
      hide Linked, GetItems, SetItem, JournalIndex, JournalKey, UserPart, Cache, OnlyIndexed, Queued, IndexBelow,
        Enqueued;
      StoredOnlyIndexed(local.data, index, key, val);
      UserPartSet(local.data, key, val);
      ok := local.SetRaw(key, val);
      if !ok {
        return;
      }
      Remember(key, Json(val), c.ttl, now);
      if remote.healthy {
        ok := remote.Put(key, val);
      } else {
        EnqueuedUserPart(View(), key, val);
        ok := EnqueueJournal(key, val);
      }
    }

    /** The remote is of record: scratch and local are projections; journaled when the remote fails. */
    method PutAuthoritative(key: Key, val: Raw, c: Class, now: Time) returns (ok: bool)
      requires Valid() && !IsJournal(key) && seqNo < MAX_SEQ
      modifies this, scratch, scratch.ll, local`data, remote`data, remote`replies
      ensures Valid()
      ensures forall i :: 0 <= i < |scratch.ll| ==> scratch.ll[i] in old(scratch.ll) || fresh(scratch.ll[i])
      ensures ok == (!local.closed || (remote.healthy && Next(old(remote.replies)).Ok?))
      ensures View() == AuthoritativeState(old(View()), local.closed, remote.healthy, Next(old(remote.replies)), key,
        val)
      ensures scratch.Items() == Cache(old(Mem()), key, Json(val), c.ttl, now).items
      ensures !local.closed ==>
                && ok && HasValue(local.data, key, val)
                && if remote.healthy && Next(old(remote.replies)).Ok? then HasValue(remote.data, key, val)
                   else Queued(local.data, index, key, val)
      ensures !local.closed && old(OnlyIndexed(local.data, index, key)) ==> OnlyIndexed(local.data, index, key)
    {
      hide Linked, GetItems, SetItem, JournalIndex, JournalKey, OnlyIndexed, Queued, IndexBelow, UserPart, Enqueued,
        ClaimOnly;
      StoredOnlyIndexed(local.data, index, key, val);
      Remember(key, Json(val), c.ttl, now);
      var _ := local.SetRaw(key, val);
      if remote.healthy {
        ok := remote.Put(key, val);
        if ok {
          return;
        }
      }
      ok := EnqueueJournal(key, val);
    }

    /** Resolves the policy and writes. */
    method Put(key: Key, val: Raw, hint: Option<Hint>, now: Time) returns (ok: bool)
      requires Valid() && !IsJournal(key) && seqNo < MAX_SEQ
      modifies this, scratch, scratch.ll, local`data, remote`data, remote`replies
      ensures Valid()
      ensures forall i :: 0 <= i < |scratch.ll| ==> scratch.ll[i] in old(scratch.ll) || fresh(scratch.ll[i])
      ensures var c := policy.Resolve(key, hint);
              && (c.write.WriteAround?
                ==> ok && Mem() == Cache(old(Mem()), key, Json(val), c.ttl, now) && View() == old(View()))
              && (c.write.BackWrite? ==>
                    && ok == !local.closed && Mem() == PutBack(old(Mem()), key, val, c.ttl, now)
                    && IsRun(old(View()), PutRun(key, val))
                    && View() == if ok then After(old(View()), PutRun(key, val)) else old(View()))
              && (c.write.WriteThrough? ==>
                    && ok == (!local.closed && (remote.healthy ==> Next(old(remote.replies)).Ok?))
                    && Mem() == PutBack(old(Mem()), key, val, c.ttl, now).(remote := remote.data)
                    && View() == ThroughState(old(View()), local.closed, remote.healthy, Next(old(remote.replies)),
                      key, val))
              && (c.write.RemoteAuthoritative? ==>
                    && ok == (!local.closed || (remote.healthy && Next(old(remote.replies)).Ok?))
                    && scratch.Items() == Cache(old(Mem()), key, Json(val), c.ttl, now).items
                    && View() == AuthoritativeState(old(View()), local.closed, remote.healthy,
                      Next(old(remote.replies)), key, val))
      ensures !policy.Resolve(key, hint).write.WriteAround? && ok && !local.closed ==>
                && HasValue(local.data, key, val)
                && (HasValue(remote.data, key, val) || Queued(local.data, index, key, val))
                && (old(OnlyIndexed(local.data, index, key)) ==> OnlyIndexed(local.data, index, key))
    {
      hide Linked, GetItems, SetItem, JournalIndex, JournalKey, UserPart, Cache, IsRun, After, PutRun, ThroughState,
        AuthoritativeState, OnlyIndexed, Queued, IndexBelow, HasValue;
      var c := policy.Resolve(key, hint);
      match c.write
      case WriteAround =>
        PutAround(key, val, c, now);
        ok := true;
      case BackWrite => ok := PutBehind(key, val, c, now);
      case WriteThrough =>
        ok := PutThrough(key, val, c, now);
      case RemoteAuthoritative => ok := PutAuthoritative(key, val, c, now);
    }

    // ----- the flush -----

    /** Deals with one listed journal key: read, send, drop, unindex; reports whether to go on. */
    method FlushOne(jk: Key, ghost rest: seq<Key>) returns (goOn: bool, sent: bool)
      requires Valid() && !local.closed
      modifies this`index, local`data, remote`data, remote`replies
      ensures Valid()
      ensures var s := old(View()).(flusher := Sending([jk] + rest));
              var s1 := Step(s, ReadEntry);
              && sent == (s1.flusher.Holding? && Next(old(remote.replies)).Ok?)
              && (!s1.flusher.Holding? ==>
                    goOn && View().(flusher := Sending(rest)) == s1 && remote.replies == old(remote.replies))
              && (s1.flusher.Holding? ==>
                    remote.replies == Rest(old(remote.replies)) && goOn == Next(old(remote.replies)).Ok?
                    && if goOn then View().(flusher := Sending(rest)) == Sent(s)
                       else View() == Step(s1, Send(Next(old(remote.replies)))))
    {
      hide Linked, Step, Sent, JournalIndex, IndexBelow, UserPart;
      IndexWithout(index, seqNo);
      ReadExplicit(View().(flusher := Sending([jk] + rest)), jk, rest);
      var entry := local.GetRaw(jk);
      if entry.None? || !entry.value.Entry? {
        var _ := local.Delete(jk);
        return true, false;
      }
      var ok := remote.Put(entry.value.key, entry.value.val);
      if !ok {
        return false, false;
      }
      var _ := local.Delete(jk);
      if entry.value.key in index && index[entry.value.key] == jk {
        index := index - {entry.value.key};
      }
      return true, true;
    }

    /** Sends pending entries oldest first, dropping each one acknowledged and stopping at the first
        failure, and reports how many: the protocol's flush, undisturbed.  A durable store lists no pending entries. */
    method Flush() returns (n: nat)
      requires Valid()
      modifies this`index, local`data, remote`data, remote`replies
      ensures Valid()
      ensures IsRun(old(View()), FlushRun(old(View()), old(remote.replies)))
      ensures remote.healthy && !local.closed && !local.durable ==>
                && View() == After(old(View()), FlushRun(old(View()), old(remote.replies)))
                && n == Sends(FlushRun(old(View()), old(remote.replies)))
      ensures !remote.healthy || local.closed || local.durable ==> View() == old(View()) && n == 0
      ensures remote.healthy && !local.closed && !local.durable && AllOk(old(remote.replies)) ==>
                forall key :: Delivered(old(local.data), old(remote.data), remote.data, key)
    {
      hide Linked, Sorted, Step, FlushFrom, After, IsRun, JournalIndex, Sends, IndexBelow, UserPart, Delivered, AllOk;
      n := 0;
      ghost var s0, replies0 := View(), remote.replies;
      FlushStarts(s0, replies0);
      if AllOk(replies0) {
        FlushDeliversAll(s0, replies0);
      }
      if !remote.healthy {
        return;
      }
      var keys := local.Keys(JOURNAL_PREFIX);
      if local.durable {
        DurableHidesReserved(local.data, JOURNAL_PREFIX);
        SortedNone();
      }
      ghost var goal := After(s0, FlushRun(s0, replies0));
      ghost var plain := !local.closed && !local.durable;
      if plain {
        FlushStartSends(s0, replies0);
      }
      for i := 0 to |keys|
        invariant Valid() && plain == (!local.closed && !local.durable) && (!plain ==> keys == [])
        invariant !plain ==> View() == s0 && n == 0
        invariant plain ==> goal == FlushResult(View().(flusher := Sending(keys[i..])), remote.replies)
        invariant plain ==> Sends(FlushRun(s0, replies0)) ==
                            n + Sends(FlushFrom(View().(flusher := Sending(keys[i..])), remote.replies))
      {
        ghost var s := View().(flusher := Sending(keys[i..]));
        assert keys[i..] == [keys[i]] + keys[i + 1..];
        FlushUnfolds(s, remote.replies);
        SendsUnfold(s, remote.replies);
        var goOn, sent := FlushOne(keys[i], keys[i + 1..]);
        if !goOn {
          return;
        }
        if sent {
          n := n + 1;
        }
      }
      if plain {
        FlushUnfolds(View().(flusher := Sending(keys[|keys|..])), remote.replies);
        SendsUnfold(View().(flusher := Sending(keys[|keys|..])), remote.replies);
      }
    }
  }
}
