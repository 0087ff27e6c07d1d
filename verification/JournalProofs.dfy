/** Every step of the journal keeps the invariant; the promises follow over whole runs. */
module JournalProofs {
  import opened Basics
  import opened JournalModel
  import opened JournalProtocol

  // ------------------------------------------------------- saving one snapshot

  /** A snapshot ahead of the history is inserted into both tables, never ignored. */
  lemma InsertAhead(d: Disk, history: map<nat, Snapshot>, v: Snapshot)
    requires DiskInv(d, history) && Ahead(history, v)
    ensures var d' := Save(d, v);
      && d'.events == d.events[v.revision := v] && Recorded(d, history, v) == history[v.revision := v]
      && d'.commands == d.commands[v.key := v]
      && d'.head == Highest(d.head, v.revision)
  {
  }

  /** Saving a twin changes nothing while its row is stored, and restores the row, marked, where
      retention has removed it. */
  lemma InsertTwin(loose: bool, d: Disk, history: map<nat, Snapshot>, v: Snapshot)
    requires DiskInv(d, history) && Twin(loose, history, v)
    ensures if v.revision in d.events
            then Save(d, v) == d && v.key in d.commands && Same(loose, d.commands[v.key], v)
            else v.key !in d.commands && Save(d, v) == d.(commands := d.commands[v.key := v], events := d.events[v.revision := v])
  {
    if v.key in d.commands {
      var u := d.commands[v.key];
      assert u.key == v.key && u.revision in d.events && d.events[u.revision] == u && Newest(history, u);
      assert u.revision in history && history[u.revision] == u;
      assert u.revision <= v.revision;
      assert history[v.revision].key == v.key;
      assert v.revision <= u.revision;
    }
  }

  lemma InsertKeepsDisk(loose: bool, d: Disk, history: map<nat, Snapshot>, v: Snapshot)
    requires DiskInv(d, history) && Savable(loose, history, v) && 0 < v.revision
    ensures DiskInv(Save(d, v), Recorded(d, history, v))
  {
    if Ahead(history, v) {
      InsertAhead(d, history, v);
      NewRowKeepsDisk(d, history, v);
    } else {
      InsertTwin(loose, d, history, v);
      if v.revision !in d.events {
        RowAgainKeepsDisk(loose, d, history, v);
      }
    }
  }

  lemma NewRowKeepsDisk(d: Disk, history: map<nat, Snapshot>, v: Snapshot)
    requires DiskInv(d, history) && Ahead(history, v) && 0 < v.revision
    ensures DiskInv(d.(commands := d.commands[v.key := v], events := d.events[v.revision := v], head := Highest(d.head, v.revision)),
                    history[v.revision := v])
  {
    var commands, events, history' := d.commands[v.key := v], d.events[v.revision := v], history[v.revision := v];
    forall k | k in commands ensures Newest(history', commands[k]) {
      if k != v.key {
        assert d.commands[k].key == k && Newest(history, d.commands[k]);
      }
    }
    assert CommandsInv(commands, events, history');
  }

  lemma RowAgainKeepsDisk(loose: bool, d: Disk, history: map<nat, Snapshot>, v: Snapshot)
    requires DiskInv(d, history) && Twin(loose, history, v) && v.key !in d.commands && v.revision !in d.events && 0 < v.revision
    ensures DiskInv(d.(commands := d.commands[v.key := v], events := d.events[v.revision := v]), history[v.revision := v])
  {
    var commands, events, history' := d.commands[v.key := v], d.events[v.revision := v], history[v.revision := v];
    forall k | k in commands ensures Newest(history', commands[k]) {
      if k != v.key {
        assert d.commands[k].key == k && Newest(history, d.commands[k]);
      }
    }
    assert CommandsInv(commands, events, history');
  }

  lemma InsertKeepsReader(q: Reader, d: Disk, history: map<nat, Snapshot>, v: Snapshot)
    requires DiskInv(d, history) && ReaderInv(q, d.events, history) && q.cursor < v.revision
    ensures ReaderInv(q, Save(d, v).events, Recorded(d, history, v))
  {
  }

  /** What every save leaves behind: a row for the key that equals it but for the mark, and the newest
      evidence of that key. */
  lemma InsertLeaves(loose: bool, d: Disk, history: map<nat, Snapshot>, v: Snapshot)
    requires DiskInv(d, history) && Savable(loose, history, v)
    ensures var d', history' := Save(d, v), Recorded(d, history, v);
      && v.key in d'.commands && Same(loose, d'.commands[v.key], v)
      && (d'.commands == d.commands || d'.commands == d.commands[v.key := v])
      && d.head <= d'.head
      && v.revision in history' && Same(loose, history'[v.revision], v) && Newest(history', v)
      && (history' == history || history' == history[v.revision := v])
  {
    if Ahead(history, v) {
      InsertAhead(d, history, v);
    } else {
      InsertTwin(loose, d, history, v);
    }
  }

  // ------------------------------------------------------------- the writer

  /** Other keys' evidence is not touched by recording `v`. */
  lemma SavableElsewhere(loose: bool, history: map<nat, Snapshot>, v: Snapshot, x: Snapshot)
    requires Savable(loose, history, x) && x.key != v.key && x.revision != v.revision
    ensures Savable(loose, history[v.revision := v], x)
  {
  }

  /** A newer snapshot of the key stays ahead. */
  lemma SavableNewer(loose: bool, history: map<nat, Snapshot>, v: Snapshot, x: Snapshot)
    requires Savable(loose, history, x) && Savable(loose, history, v) && x.key == v.key && v.revision < x.revision
    ensures Savable(loose, history[v.revision := v], x)
  {
    assert Ahead(history, x);
  }

  lemma CommitKeepsPending(loose: bool, history: map<nat, Snapshot>, m: Memory, owner: map<nat, Key>, batch: seq<Snapshot>, history': map<nat, Snapshot>)
    requires DirtyInv(m) && CacheInv(m, owner)
    requires batch != [] && InFlight(m, owner, batch[0]) && Savable(loose, history, batch[0])
    requires PendingInv(loose, history, m.dirty, Flushing(batch))
    requires history' == history || history' == history[batch[0].revision := batch[0]]
    ensures PendingInv(loose, history', m.dirty, Committed(batch[0], batch[1..]))
  {
    hide Savable;
    var v := batch[0];
    forall k | k in m.dirty
      ensures Savable(loose, history', m.dirty[k]) || m.dirty[k] == v
    {
      var x := m.dirty[k];
      assert Savable(loose, history, x) && x == m.entries[k] && x.key == k;
      if history' != history && x != v {
        if k == v.key {
          SavableNewer(loose, history, v, x);
        } else {
          SavableElsewhere(loose, history, v, x);
        }
      }
    }
  }

  lemma CommitKeepsBatch(loose: bool, history: map<nat, Snapshot>, m: Memory, owner: map<nat, Key>, batch: seq<Snapshot>, history': map<nat, Snapshot>)
    requires batch != [] && BatchInv(loose, history, m, owner, batch)
    requires history' == history || history' == history[batch[0].revision := batch[0]]
    ensures BatchInv(loose, history', m, owner, batch[1..])
    ensures forall x :: x in batch[1..] ==> x in batch && x.key != batch[0].key
  {
    hide Savable;
    var v := batch[0];
    assert v in batch;
    forall x | x in batch[1..]
      ensures x in batch && x.key != v.key && Savable(loose, history', x)
    {
      var i :| 0 <= i < |batch| - 1 && batch[1..][i] == x;
      assert batch[i + 1] == x && x in batch;
      if history' != history { SavableElsewhere(loose, history, v, x); }
    }
  }

  lemma CommitKeepsAgree(loose: bool, m: Memory, commands: map<Key, Snapshot>, pruned: set<Snapshot>, v: Snapshot, commands': map<Key, Snapshot>)
    requires AgreeInv(loose, m, commands, pruned)
    requires v.key in m.entries ==> v.key in m.dirty
    requires commands' == commands || commands' == commands[v.key := v]
    ensures AgreeInv(loose, m, commands', pruned)
  {
    hide WasPruned, Same;
  }

  /** The first of the batch is still owned by its key and may be saved. */
  lemma FirstOfBatch(s: System, p: Process, h: Hashes)
    requires Inv(s, h) && s.proc == Some(p) && p.writer.Flushing? && p.writer.batch != []
    ensures var v := p.writer.batch[0];
      && p.connected && Savable(p.unreported, s.history, v) && InFlight(p.mem, p.owner, v)
      && 0 < v.revision <= p.mem.revision && s.reader.cursor < v.revision
  {
    hide DiskInv, ReaderInv, AdmissionInv, AckInv, AgreeInv, PendingInv, Savable, DirtyInv;
    assert p.writer.batch[0] in Batch(p.writer);
  }

  /** What a save of the first of the batch does to the tables, the reader and the evidence waiting. */
  lemma SavedKeeps(s: System, p: Process, h: Hashes)
    requires Inv(s, h) && s.proc == Some(p) && p.writer.Flushing? && p.writer.batch != []
    ensures var batch := p.writer.batch; var v := batch[0];
            var d, history := Save(s.disk, v), Recorded(s.disk, s.history, v);
      && DiskInv(d, history) && ReaderInv(s.reader, d.events, history)
      && s.disk.head <= d.head <= p.mem.revision && s.reader.cursor <= d.head
      && PendingInv(p.unreported, history, p.mem.dirty, Committed(v, batch[1..]))
      && BatchInv(p.unreported, history, p.mem, p.owner, batch[1..])
      && SavedInv(p.unreported, d.commands, p.mem, p.owner, v, batch[1..])
      && AgreeInv(p.unreported, p.mem, d.commands, s.pruned)
      && Twin(true, history, v)
  {
    FirstOfBatch(s, p, h);
    var batch, loose := p.writer.batch, p.unreported;
    var v := batch[0];
    assert DiskInv(s.disk, s.history) && s.disk.head <= p.mem.revision;
    assert PendingInv(loose, s.history, p.mem.dirty, Flushing(batch)) && BatchInv(loose, s.history, p.mem, p.owner, batch);
    assert DirtyInv(p.mem) && CacheInv(p.mem, p.owner) && AgreeInv(loose, p.mem, s.disk.commands, s.pruned);
    hide Inv, DiskInv, ReaderInv, PendingInv, BatchInv, DirtyInv, CacheInv, AgreeInv, Savable, Newest;
    InsertLeaves(loose, s.disk, s.history, v);
    InsertKeepsDisk(loose, s.disk, s.history, v);
    InsertKeepsReader(s.reader, s.disk, s.history, v);
    var history := Recorded(s.disk, s.history, v);
    CommitKeepsPending(loose, s.history, p.mem, p.owner, batch, history);
    CommitKeepsBatch(loose, s.history, p.mem, p.owner, batch, history);
    CommitKeepsAgree(loose, p.mem, s.disk.commands, s.pruned, v, Save(s.disk, v).commands);
  }

  lemma CommitKeeps(s: System, p: Process, h: Hashes)
    requires Inv(s, h) && s.proc == Some(p) && p.writer.Flushing? && p.writer.batch != []
    ensures Inv(DoCommit(s, p), h)
  {
    hide DiskInv, ReaderInv, AdmissionInv, MemoryInv, AgreeInv, PendingInv, BatchInv, SavedInv, Twin, Recorded, Save;
    SavedKeeps(s, p, h);
  }

  lemma AckKeepsAgree(loose: bool, m: Memory, owner: map<nat, Key>, commands: map<Key, Snapshot>, pruned: set<Snapshot>, v: Snapshot)
    requires AgreeInv(loose, m, commands, pruned) && DirtyInv(m)
    requires v.key in commands && Same(loose, commands[v.key], v) && InFlight(m, owner, v)
    ensures AgreeInv(loose, AckSaved(m, v), commands, pruned)
  {
    hide WasPruned;
  }

  lemma AckKeepsPending(loose: bool, history: map<nat, Snapshot>, m: Memory, owner: map<nat, Key>, v: Snapshot, rest: seq<Snapshot>)
    requires PendingInv(loose, history, m.dirty, Committed(v, rest)) && DirtyInv(m) && CacheInv(m, owner)
    ensures PendingInv(loose, history, AckSaved(m, v).dirty, Flushing(rest))
  {
    hide Savable;
    forall k | k in AckSaved(m, v).dirty
      ensures Savable(loose, history, m.dirty[k])
    {
      assert m.dirty[k].key == k;
    }
  }

  lemma AckKeepsBatch(loose: bool, history: map<nat, Snapshot>, m: Memory, owner: map<nat, Key>, v: Snapshot, rest: seq<Snapshot>)
    requires BatchInv(loose, history, m, owner, rest) && forall x :: x in rest ==> x.key != v.key
    ensures BatchInv(loose, history, AckSaved(m, v), owner, rest)
  {
    hide Savable;
  }

  lemma AckKeepsProcess(p: Process, h: Hashes, v: Snapshot, w: Writer)
    requires ProcessInv(p, h) && p.connected && InFlight(p.mem, p.owner, v)
    ensures ProcessInv(p.(mem := AckSaved(p.mem, v), writer := w), h)
  {
    hide AdmissionInv;
  }

  lemma AckCommitKeeps(s: System, p: Process, h: Hashes)
    requires Inv(s, h) && s.proc == Some(p) && p.writer.Committed?
    ensures Inv(Put(s, p, AckSaved(p.mem, p.writer.saved), Flushing(p.writer.rest)), h)
  {
    hide DiskInv, ReaderInv, AdmissionInv, AgreeInv, PendingInv, BatchInv, InFlight, DirtyInv, CacheInv, AckInv, Same;
    var v, rest := p.writer.saved, p.writer.rest;
    AckKeepsAgree(p.unreported, p.mem, p.owner, s.disk.commands, s.pruned, v);
    AckKeepsPending(p.unreported, s.history, p.mem, p.owner, v, rest);
    AckKeepsBatch(p.unreported, s.history, p.mem, p.owner, v, rest);
    AckKeepsProcess(p, h, v, Flushing(rest));
    hide ProcessInv;
  }

  lemma MarkExact(m: Memory, error: string)
    requires DirtyInv(m)
    ensures var m' := MarkFailed(m, error);
      && m' == m.(error := error, entries := m'.entries, dirty := m'.dirty)
      && m'.entries.Keys == m.entries.Keys && m'.dirty.Keys == m.dirty.Keys
      && (forall k :: k in m.dirty ==> m'.dirty[k] == Marked(m.dirty[k]) && m'.entries[k] == m'.dirty[k])
      && (forall k :: k in m.entries && k !in m.dirty ==> m'.entries[k] == m.entries[k])
  {
  }

  lemma MarkKeepsMemory(m: Memory, owner: map<nat, Key>, error: string)
    requires MemoryInv(m, owner)
    ensures MemoryInv(MarkFailed(m, error), owner)
  {
    MarkExact(m, error);
    var m' := MarkFailed(m, error);
    forall k | k in m'.entries
      ensures m'.entries[k].key == k && m'.entries[k].revision == m.entries[k].revision
    {
      assert k in m.entries;
    }
    assert |m'.entries| == |m'.entries.Keys| && |m.entries| == |m.entries.Keys|;
  }

  lemma SavableMarked(loose: bool, history: map<nat, Snapshot>, v: Snapshot)
    requires Savable(loose, history, v)
    ensures Savable(loose, history, Marked(v))
  {
  }

  lemma MarkKeepsPending(loose: bool, m: Memory, error: string, history: map<nat, Snapshot>, batch: seq<Snapshot>)
    requires DirtyInv(m) && PendingInv(loose, history, m.dirty, Flushing(batch))
    ensures PendingInv(loose, history, MarkFailed(m, error).dirty, Idle)
  {
    hide Savable, MarkFailed;
    MarkExact(m, error);
    forall k | k in m.dirty
      ensures Savable(loose, history, Marked(m.dirty[k]))
    {
      assert Savable(loose, history, m.dirty[k]);
      SavableMarked(loose, history, m.dirty[k]);
    }
  }

  lemma MarkKeepsAgree(loose: bool, m: Memory, error: string, commands: map<Key, Snapshot>, pruned: set<Snapshot>)
    requires DirtyInv(m) && AgreeInv(loose, m, commands, pruned)
    ensures AgreeInv(loose, MarkFailed(m, error), commands, pruned)
  {
    hide WasPruned, Same, MarkFailed;
    MarkExact(m, error);
  }

  lemma {:induction false} SaveFailKeeps(s: System, p: Process, h: Hashes, error: string)
    requires Inv(s, h) && s.proc == Some(p) && p.writer.Flushing? && p.writer.batch != []
    ensures Inv(Put(s, p, MarkFailed(p.mem, error), Idle), h)
  {
    hide DiskInv, ReaderInv, AdmissionInv, AgreeInv, PendingInv, CacheInv, AckInv, MarkFailed;
    MarkExact(p.mem, error);
    MarkKeepsMemory(p.mem, p.owner, error);
    MarkKeepsPending(p.unreported, p.mem, error, s.history, p.writer.batch);
    MarkKeepsAgree(p.unreported, p.mem, error, s.disk.commands, s.pruned);
  }

  /** After an unreported commit the marked snapshot is the twin of what was stored. */
  lemma UnreportedKeepsPending(loose: bool, m: Memory, error: string, history: map<nat, Snapshot>, v: Snapshot, rest: seq<Snapshot>)
    requires DirtyInv(m) && PendingInv(loose, history, m.dirty, Committed(v, rest)) && Twin(true, history, v)
    ensures PendingInv(true, history, MarkFailed(m, error).dirty, Idle)
  {
    hide MarkFailed;
    MarkExact(m, error);
    forall k | k in m.dirty
      ensures Savable(true, history, Marked(m.dirty[k]))
    {
      assert Savable(loose, history, m.dirty[k]) || m.dirty[k] == v;
      SavableMarked(true, history, m.dirty[k]);
    }
  }

  lemma LooserAgrees(loose: bool, m: Memory, commands: map<Key, Snapshot>, pruned: set<Snapshot>)
    requires AgreeInv(loose, m, commands, pruned)
    ensures AgreeInv(true, m, commands, pruned)
  {
    forall v | WasPruned(loose, pruned, v) ensures WasPruned(true, pruned, v) {
      var u :| u in pruned && Same(loose, u, v);
    }
    hide WasPruned;
  }

  lemma {:induction false} UnreportedKeeps(s: System, p: Process, h: Hashes, error: string)
    requires Inv(s, h) && s.proc == Some(p) && p.writer.Flushing? && p.writer.batch != []
    ensures Inv(DoUnreported(s, p, error), h)
  {
    hide DiskInv, ReaderInv, AdmissionInv, AgreeInv, PendingInv, BatchInv, SavedInv, CacheInv, AckInv, MarkFailed, Twin, Recorded, Save;
    var v := p.writer.batch[0];
    SavedKeeps(s, p, h);
    MarkExact(p.mem, error);
    MarkKeepsMemory(p.mem, p.owner, error);
    UnreportedKeepsPending(p.unreported, p.mem, error, Recorded(s.disk, s.history, v), v, p.writer.batch[1..]);
    LooserAgrees(p.unreported, p.mem, Save(s.disk, v).commands, s.pruned);
    MarkKeepsAgree(true, p.mem, error, Save(s.disk, v).commands, s.pruned);
    EmptyBatch(true, Recorded(s.disk, s.history, v), MarkFailed(p.mem, error), p.owner);
  }

  lemma EmptyBatch(loose: bool, history: map<nat, Snapshot>, m: Memory, owner: map<nat, Key>)
    ensures BatchInv(loose, history, m, owner, [])
  {
  }

  lemma {:induction false} CloneBatchKeeps(s: System, p: Process, h: Hashes, batch: seq<Snapshot>)
    requires Inv(s, h) && s.proc == Some(p) && p.connected && p.writer.Idle? && IsBatch(p.mem, batch)
    ensures Inv(Put(s, p, p.mem, Flushing(batch)), h)
  {
    hide DiskInv, ReaderInv, MemoryInv, AdmissionInv, AgreeInv, Savable, IsBatch, PendingInv, BatchInv;
    CloneTakes(s, p, h, batch);
  }

  lemma {:induction false} CloneTakes(s: System, p: Process, h: Hashes, batch: seq<Snapshot>)
    requires Inv(s, h) && s.proc == Some(p) && p.connected && p.writer.Idle? && IsBatch(p.mem, batch)
    ensures BatchInv(p.unreported, s.history, p.mem, p.owner, batch) && Beyond(s.reader.cursor, p.mem.dirty, batch)
    ensures PendingInv(p.unreported, s.history, p.mem.dirty, Flushing(batch))
  {
    hide DiskInv, ReaderInv, AdmissionInv, AgreeInv, Savable, KeyBefore, HasKey, AckInv;
    forall v | v in batch
      ensures Savable(p.unreported, s.history, v) && InFlight(p.mem, p.owner, v) && s.reader.cursor < v.revision
    {
      assert v.key in p.mem.dirty && p.mem.dirty[v.key] == v;
    }
  }

  lemma FlushDoneKeeps(s: System, p: Process, h: Hashes)
    requires Inv(s, h) && s.proc == Some(p) && p.writer == Flushing([])
    ensures Inv(Put(s, p, p.mem, Idle), h)
  {
    hide DiskInv, ReaderInv, AdmissionInv, MemoryInv, AgreeInv, Ahead;
  }

  // -------------------------------------------------------------- retention

  lemma PruneKeepsDisk(d: Disk, history: map<nat, Snapshot>, cutoff: nat, keep: nat)
    requires DiskInv(d, history)
    ensures DiskInv(Prune(d, cutoff, keep), history)
  {
    var d' := Prune(d, cutoff, keep);
    forall k | k in d'.commands
      ensures d'.commands[k].revision in d'.events && d'.events[d'.commands[k].revision] == d'.commands[k]
    {
      assert k in d.commands && d'.commands[k] == d.commands[k];
    }
  }

  lemma PruneKeepsAgree(loose: bool, m: Memory, d: Disk, pruned: set<Snapshot>, cutoff: nat, keep: nat)
    requires AgreeInv(loose, m, d.commands, pruned)
    ensures var d' := Prune(d, cutoff, keep);
            AgreeInv(loose, m, d'.commands, pruned + set k | k in d.commands && k !in d'.commands :: d.commands[k])
  {
    var d' := Prune(d, cutoff, keep);
    var pruned' := pruned + set k | k in d.commands && k !in d'.commands :: d.commands[k];
    forall k | k in m.entries && k !in m.dirty
      ensures (k in d'.commands && Same(loose, d'.commands[k], m.entries[k])) || (WasPruned(loose, pruned', m.entries[k]) && m.entries[k].Terminal())
    {
      var v := m.entries[k];
      if k in d.commands && Same(loose, d.commands[k], v) {
        if k !in d'.commands {
          assert Expires(d, k, cutoff, keep);
          assert d.commands[k] in pruned';
        }
      } else {
        var u :| u in pruned && Same(loose, u, v);
        assert u in pruned';
      }
    }
  }

  /** A command has come to its end: neither accepted nor under way. */
  predicate Ended(v: Snapshot) { !v.phase.Accepted? && !v.phase.Active? }

  lemma ExpiresExactly(d: Disk, k: Key, cutoff: nat, keep: nat)
    requires k in d.commands
    ensures Expires(d, k, cutoff, keep) <==>
      Ended(d.commands[k])
      && (d.commands[k].updated < cutoff
          || |set j | j in d.commands && Ended(d.commands[j]) && d.commands[k].revision < d.commands[j].revision| >= keep)
  {
    assert NewerFinished(d, k) == set j | j in d.commands && Ended(d.commands[j]) && d.commands[k].revision < d.commands[j].revision;
  }

  lemma RetentionKeeps(s: System, p: Process, h: Hashes, cutoff: nat, keep: nat)
    requires Inv(s, h) && s.proc == Some(p) && p.connected && p.writer.Idle?
    ensures Inv(DoRetention(s, cutoff, keep), h)
    ensures var d, d' := s.disk, DoRetention(s, cutoff, keep).disk;
      && d'.head == d.head
      && (forall k :: k in d'.commands <==> k in d.commands && !Expires(d, k, cutoff, keep))
      && (forall k :: k in d.commands ==>
            (k !in d'.commands <==>
              Ended(d.commands[k])
              && (d.commands[k].updated < cutoff
                  || |set j | j in d.commands && Ended(d.commands[j]) && d.commands[k].revision < d.commands[j].revision| >= keep)))
      && (forall r :: r in d'.events <==> r in d.events && d.events[r].key in d'.commands)
      && (forall k :: k in d'.commands ==> d'.commands[k] == d.commands[k])
      && (forall r :: r in d'.events ==> d'.events[r] == d.events[r])
  {
    hide DiskInv, ProcessInv, AgreeInv, PendingInv;
    forall k | k in s.disk.commands
      ensures Expires(s.disk, k, cutoff, keep) <==>
        Ended(s.disk.commands[k])
        && (s.disk.commands[k].updated < cutoff
            || |set j | j in s.disk.commands && Ended(s.disk.commands[j]) && s.disk.commands[k].revision < s.disk.commands[j].revision| >= keep)
    {
      ExpiresExactly(s.disk, k, cutoff, keep);
    }
    PruneKeepsDisk(s.disk, s.history, cutoff, keep);
    PruneKeepsAgree(p.unreported, p.mem, s.disk, s.pruned, cutoff, keep);
    assert ReaderInv(s.reader, Prune(s.disk, cutoff, keep).events, s.history);
  }

  /** The finished command of least revision. */
  lemma {:induction false} LeastFinished(d: Disk, keys: set<Key>) returns (k: Key)
    requires keys != {} && forall j :: j in keys ==> j in d.commands
    ensures k in keys && forall j :: j in keys ==> d.commands[k].revision <= d.commands[j].revision
    decreases |keys|
  {
    k :| k in keys;
    if keys != {k} {
      var m := LeastFinished(d, keys - {k});
      if d.commands[m].revision < d.commands[k].revision { k := m; }
    }
  }

  /** Two stored commands never share a revision. */
  lemma RevisionsDiffer(d: Disk, history: map<nat, Snapshot>)
    requires DiskInv(d, history)
    ensures forall j, k :: j in d.commands && k in d.commands && j != k ==> d.commands[j].revision != d.commands[k].revision
  {
    hide HistoryInv, EventsInv, OwnedInv, Newest;
  }

  /** Retention bounds the table: at most `keep` finished commands remain. */
  lemma {:induction false} RetentionBounds(d: Disk, history: map<nat, Snapshot>, cutoff: nat, keep: nat)
    requires DiskInv(d, history)
    ensures var d' := Prune(d, cutoff, keep); |set k | k in d'.commands && d'.commands[k].Terminal()| <= keep
  {
    RevisionsDiffer(d, history);
    hide DiskInv;
    var d' := Prune(d, cutoff, keep);
    var left := set k | k in d'.commands && d'.commands[k].Terminal();
    if left != {} {
      var k := LeastFinished(d, left);
      assert !Expires(d, k, cutoff, keep);
      assert left - {k} <= NewerFinished(d, k);
      SubsetSize(left - {k}, NewerFinished(d, k));
    }
  }

  // ---------------------------------------------------------------- admission

  lemma EvictKeepsMemory(m: Memory, owner: map<nat, Key>, victim: Key)
    requires MemoryInv(m, owner) && victim in m.entries
    ensures MemoryInv(Evict(m, victim), owner) && |Evict(m, victim).entries| < CACHE_LIMIT
  {
    var m' := Evict(m, victim);
    assert m'.entries.Keys == m.entries.Keys - {victim};
    assert |m'.entries| == |m'.entries.Keys| && |m.entries| == |m.entries.Keys|;
  }

  lemma EvictKeepsWriter(d: Disk, history: map<nat, Snapshot>, p: Process, victim: Key)
    requires WriterInv(d, history, p)
    ensures WriterInv(d, history, p.(mem := Evict(p.mem, victim)))
  {
    hide Savable, OpeningInv, Same;
    var m := Evict(p.mem, victim);
    assert forall x :: InFlight(p.mem, p.owner, x) ==> InFlight(m, p.owner, x);
  }

  lemma EvictKeepsAgree(loose: bool, m: Memory, commands: map<Key, Snapshot>, pruned: set<Snapshot>, victim: Key)
    requires AgreeInv(loose, m, commands, pruned)
    ensures AgreeInv(loose, Evict(m, victim), commands, pruned)
  {
    hide WasPruned, Same;
  }

  lemma {:induction false} EvictKeeps(s: System, p: Process, h: Hashes, victim: Key)
    requires Inv(s, h) && s.proc == Some(p) && p.ready && victim in p.mem.entries
    ensures var p' := p.(mem := Evict(p.mem, victim), lost := p.lost || victim in p.mem.dirty);
            Inv(s.(proc := Some(p')), h) && |p'.mem.entries| < CACHE_LIMIT
  {
    hide DiskInv, ReaderInv, AdmissionInv, MemoryInv, AgreeInv, BatchInv, PendingInv, SavedInv, OpeningInv;
    EvictKeepsMemory(p.mem, p.owner, victim);
    EvictKeepsWriter(s.disk, s.history, p, victim);
    EvictKeepsAgree(p.unreported, p.mem, s.disk.commands, s.pruned, victim);
    var p' := p.(mem := Evict(p.mem, victim), lost := p.lost || victim in p.mem.dirty);
    assert WriterInv(s.disk, s.history, p');
  }

  /** A snapshot under the next revision, as admission and updates write it. */
  function Written(m: Memory, v: Snapshot): Memory {
    m.(revision := m.revision + 1, entries := m.entries[v.key := v], dirty := m.dirty[v.key := v])
  }

  lemma FreshAhead(history: map<nat, Snapshot>, head: nat, v: Snapshot)
    requires HistoryInv(history, head) && head < v.revision
    ensures Ahead(history, v)
  {
  }

  lemma WrittenKeepsCache(m: Memory, owner: map<nat, Key>, v: Snapshot)
    requires DirtyInv(m) && CacheInv(m, owner) && v.revision == m.revision + 1
    ensures DirtyInv(Written(m, v)) && CacheInv(Written(m, v), owner[v.revision := v.key])
  {
  }

  lemma WrittenKeepsFlight(m: Memory, owner: map<nat, Key>, v: Snapshot, x: Snapshot)
    requires InFlight(m, owner, x) && CacheInv(m, owner) && v.revision == m.revision + 1
    ensures InFlight(Written(m, v), owner[v.revision := v.key], x)
  {
  }

  lemma WrittenKeepsWriter(d: Disk, history: map<nat, Snapshot>, p: Process, m: Memory, v: Snapshot)
    requires WriterInv(d, history, p) && HistoryInv(history, d.head) && CacheInv(p.mem, p.owner)
    requires m.entries == p.mem.entries && m.dirty == p.mem.dirty && m.revision == p.mem.revision
    requires v.revision == m.revision + 1
    ensures WriterInv(d, history, p.(mem := Written(m, v), owner := p.owner[v.revision := v.key]))
  {
    hide OpeningInv, Twin, Same;
    if p.connected {
      var m', owner' := Written(m, v), p.owner[v.revision := v.key];
      FreshAhead(history, d.head, v);
      hide Ahead;
      forall x | InFlight(p.mem, p.owner, x)
        ensures InFlight(m', owner', x)
      {
        assert InFlight(m, p.owner, x);
        WrittenKeepsFlight(m, p.owner, v, x);
      }
      hide InFlight;
      assert PendingInv(p.unreported, history, m'.dirty, p.writer);
      assert BatchInv(p.unreported, history, m', owner', Batch(p.writer));
    }
  }

  lemma WrittenKeepsAgree(loose: bool, m: Memory, commands: map<Key, Snapshot>, pruned: set<Snapshot>, v: Snapshot)
    requires AgreeInv(loose, m, commands, pruned)
    ensures AgreeInv(loose, Written(m, v), commands, pruned)
  {
    hide WasPruned, Same;
  }

  lemma WrittenKeepsProcess(p: Process, h: Hashes, m: Memory, v: Snapshot, admitted: seq<Key>)
    requires ProcessInv(p, h) && p.ready
    requires m.entries == p.mem.entries && m.dirty == p.mem.dirty && m.revision == p.mem.revision && m.gap == p.mem.gap
    requires v.revision == m.revision + 1
    requires AckInv(Written(m, v)) && |Written(m, v).entries| <= CACHE_LIMIT
    requires AdmissionInv(admitted, m.seen, p.inventory.digests, h)
    ensures ProcessInv(p.(mem := Written(m, v), owner := p.owner[v.revision := v.key], admitted := admitted), h)
  {
    hide AdmissionInv, AckInv;
    WrittenKeepsCache(m, p.owner, v);
    hide CacheInv, DirtyInv;
  }

  /** Writing a snapshot under the next revision, whatever else changes in memory with it. */
  lemma WrittenKeeps(s: System, p: Process, h: Hashes, m: Memory, v: Snapshot, admitted: seq<Key>)
    requires Inv(s, h) && s.proc == Some(p) && p.ready
    requires m.entries == p.mem.entries && m.dirty == p.mem.dirty && m.revision == p.mem.revision && m.gap == p.mem.gap
    requires v.revision == m.revision + 1
    requires AckInv(Written(m, v)) && |Written(m, v).entries| <= CACHE_LIMIT
    requires AdmissionInv(admitted, m.seen, p.inventory.digests, h)
    ensures Inv(s.(proc := Some(p.(mem := Written(m, v), owner := p.owner[v.revision := v.key], admitted := admitted))), h)
  {
    hide ReaderInv, AdmissionInv, AckInv, CacheInv, DirtyInv, EventsInv, CommandsInv, OwnedInv, HistoryInv, SavedInv, OpeningInv, PendingInv, BatchInv;
    WrittenKeepsProcess(p, h, m, v, admitted);
    WrittenKeepsWriter(s.disk, s.history, p, m, v);
    WrittenKeepsAgree(p.unreported, m, s.disk.commands, s.pruned, v);
    hide ProcessInv, AgreeInv;
    assert WriterInv(s.disk, s.history, p.(mem := Written(m, v), owner := p.owner[v.revision := v.key], admitted := admitted));
    assert p.connected ==> s.reader.cursor < v.revision;
  }

  lemma ReserveKeeps(s: System, p: Process, h: Hashes, q: Request, now: nat)
    requires Inv(s, h) && s.proc == Some(p) && p.ready
    requires |p.mem.entries| < CACHE_LIMIT
    requires !(h.indexes(q.key) <= p.mem.seen) && h.digest(q.key) !in p.inventory.digests
    ensures Inv(s.(proc := Some(p.(mem := Reserve(p.mem, h, q, p.boot, now),
                                   owner := p.owner[p.mem.revision + 1 := q.key],
                                   admitted := p.admitted + [q.key]))), h)
  {
    hide DiskInv, ReaderInv, WriterInv, AgreeInv, CacheInv, DirtyInv;
    var v := NewSnapshot(p.mem, q, p.boot, now);
    var m := p.mem.(seen := p.mem.seen + h.indexes(q.key), ack := p.mem.ack[(q.port, q.ack) := q.key]);
    var m' := Written(m, v);
    assert m' == Reserve(p.mem, h, q, p.boot, now);
    WrittenKeeps(s, p, h, m, v, p.admitted + [q.key]);
  }

  /** Error text, gap flag, tombstones and the ack index do not concern the writer. */
  lemma SameWriter(d: Disk, history: map<nat, Snapshot>, p: Process, m: Memory)
    requires WriterInv(d, history, p)
    requires m.entries == p.mem.entries && m.dirty == p.mem.dirty && m.revision == p.mem.revision
    ensures WriterInv(d, history, p.(mem := m))
  {
    hide Savable, OpeningInv, Same;
    assert forall x :: InFlight(p.mem, p.owner, x) ==> InFlight(m, p.owner, x);
  }

  lemma DegradeKeeps(s: System, p: Process, h: Hashes, error: string)
    requires Inv(s, h) && s.proc == Some(p)
    ensures Inv(Put(s, p, p.mem.(error := error), p.writer), h)
  {
    hide DiskInv, ReaderInv, AdmissionInv, WriterInv;
    SameWriter(s.disk, s.history, p, p.mem.(error := error));
  }

  /** Admission changes memory by a reservation, by an error text, or not at all. */
  lemma BeginCases(m: Memory, h: Hashes, inv: Inventory, q: Request, lookup: Lookup, victim: Key, boot: nat, now: nat)
    ensures var (mem, outcome) := Begin(m, h, inv, q, lookup, victim, boot, now);
            var m1 := Degrade(m, Effective(m, q.key, lookup));
      if outcome == Reserved then
        && q.key !in m.entries
        && !(h.indexes(q.key) <= m.seen) && h.digest(q.key) !in inv.digests
        && (|m.entries| >= CACHE_LIMIT ==> HasTerminal(m.entries))
        && mem == Reserve(if |m.entries| < CACHE_LIMIT then m1 else Evict(m1, victim), h, q, boot, now)
      else mem == m || mem == m1
  {
  }

  lemma DegradedKeeps(s: System, p: Process, h: Hashes, lookup: Lookup)
    requires Inv(s, h) && s.proc == Some(p)
    ensures Inv(s.(proc := Some(p.(mem := Degrade(p.mem, lookup)))), h)
  {
    hide Inv;
    if lookup.Unavailable? {
      DegradeKeeps(s, p, h, lookup.error);
    }
  }

  lemma ReservedKeeps(s: System, p: Process, h: Hashes, q: Request, victim: Key, now: nat)
    requires Inv(s, h) && s.proc == Some(p) && p.ready
    requires !(h.indexes(q.key) <= p.mem.seen) && h.digest(q.key) !in p.inventory.digests
    requires |p.mem.entries| >= CACHE_LIMIT ==> victim in p.mem.entries
    ensures var m := if |p.mem.entries| < CACHE_LIMIT then p.mem else Evict(p.mem, victim);
            Inv(s.(proc := Some(p.(mem := Reserve(m, h, q, p.boot, now),
                                   owner := p.owner[p.mem.revision + 1 := q.key],
                                   admitted := p.admitted + [q.key],
                                   lost := p.lost || (|p.mem.entries| >= CACHE_LIMIT && victim in p.mem.dirty)))), h)
  {
    hide Inv, Reserve;
    if |p.mem.entries| >= CACHE_LIMIT {
      EvictKeeps(s, p, h, victim);
      var p2 := p.(mem := Evict(p.mem, victim), lost := p.lost || victim in p.mem.dirty);
      ReserveKeeps(s.(proc := Some(p2)), p2, h, q, now);
    } else {
      ReserveKeeps(s, p, h, q, now);
    }
  }

  lemma AdmitKeeps(s: System, p: Process, h: Hashes, q: Request, lookup: Lookup, victim: Key, now: nat)
    requires Inv(s, h) && s.proc == Some(p) && p.ready
    requires HasTerminal(p.mem.entries) ==> IsVictim(p.mem.entries, victim)
    ensures Inv(DoAdmit(s, p, h, q, lookup, victim, now), h)
  {
    hide Inv, Begin, Reserve, Evict, HasTerminal;
    BeginCases(p.mem, h, p.inventory, q, lookup, victim, p.boot, now);
    var (mem, outcome) := Begin(p.mem, h, p.inventory, q, lookup, victim, p.boot, now);
    var answer := Effective(p.mem, q.key, lookup);
    var p1 := p.(mem := Degrade(p.mem, answer));
    DegradedKeeps(s, p, h, answer);
    if outcome == Reserved {
      ReservedKeeps(s.(proc := Some(p1)), p1, h, q, victim, now);
    }
  }

  lemma ReportKeeps(s: System, p: Process, h: Hashes, port: string, ack: nat, change: Snapshot -> Snapshot, now: nat)
    requires Inv(s, h) && s.proc == Some(p) && p.ready
    requires forall v :: change(v).key == v.key
    ensures Inv(DoReport(s, p, port, ack, change, now), h)
  {
    hide DiskInv, ReaderInv, WriterInv, AgreeInv, DirtyInv, CacheInv, AckInv, AdmissionInv;
    if (port, ack) in p.mem.ack {
      var v := UpdateIsWrite(p.mem, p.owner, port, ack, change, now);
      hide Update;
      WrittenKeeps(s, p, h, p.mem, v, p.admitted);
    }
  }

  /** A progress report rewrites one cached snapshot under the next revision. */
  lemma UpdateIsWrite(m: Memory, owner: map<nat, Key>, port: string, ack: nat, change: Snapshot -> Snapshot, now: nat)
    returns (v: Snapshot)
    requires MemoryInv(m, owner) && (port, ack) in m.ack && forall v :: change(v).key == v.key
    ensures v.revision == m.revision + 1 && v.key == m.ack[(port, ack)]
    ensures Update(m, port, ack, change, now) == Written(m, v)
    ensures AckInv(Written(m, v)) && |Written(m, v).entries| <= CACHE_LIMIT
  {
    hide DirtyInv, TrimAttempts;
    var k := m.ack[(port, ack)];
    var changed := change(m.entries[k]).(revision := m.revision + 1, updated := now);
    v := TrimAttempts(changed);
    TrimKeeps(changed);
  }

  lemma TrimKeeps(v: Snapshot)
    ensures TrimAttempts(v).key == v.key && TrimAttempts(v).revision == v.revision
  {
  }

  lemma ReadGapKeeps(s: System, p: Process, h: Hashes)
    requires Inv(s, h) && s.proc == Some(p)
    ensures Inv(Put(s, p, p.mem.(gap := true), p.writer), h)
  {
    hide DiskInv, ReaderInv, AdmissionInv, WriterInv;
    SameWriter(s.disk, s.history, p, p.mem.(gap := true));
  }

  lemma WriteGapKeeps(s: System, h: Hashes)
    requires Inv(s, h)
    ensures Inv(s.(disk := s.disk.(historyGap := true)), h)
  {
    hide ReaderInv, ProcessInv, AgreeInv, Savable, Newest, Same;
  }

  // ------------------------------------------------------------ late opening

  /** What one prefix of the rebase loop has established. */
  ghost predicate Rebased(m0: Memory, m: Memory, keys: seq<Key>) {
    && m == m0.(entries := m.entries, dirty := m.dirty, revision := m0.revision + |keys|)
    && |m.entries| == |m0.entries|
    && (forall k :: k in m.entries <==> k in m0.entries)
    && (forall k :: k in m.dirty <==> k in m0.dirty)
    && AllRebased(m0, m, keys)
    && Untouched(m0, m, keys)
  }

  ghost predicate Untouched(m0: Memory, m: Memory, keys: seq<Key>) {
    && (forall k :: k in m0.entries && k !in keys ==> k in m.entries && m.entries[k] == m0.entries[k])
    && (forall k :: k in m0.dirty && k !in keys ==> k in m.dirty && m.dirty[k] == m0.dirty[k])
  }

  ghost predicate AllRebased(m0: Memory, m: Memory, keys: seq<Key>) {
    forall i :: 0 <= i < |keys| ==> RebasedAt(m0, m, keys[i], m0.revision + i + 1)
  }

  ghost predicate RebasedAt(m0: Memory, m: Memory, k: Key, revision: nat) {
    && k in m0.entries && k in m.entries && k in m.dirty
    && m.dirty[k] == m.entries[k]
    && m.entries[k] == m0.entries[k].(revision := revision, auditIncomplete := true)
  }

  lemma RebaseOneExact(m0: Memory, m: Memory, init: seq<Key>, k: Key)
    requires Rebased(m0, m, init) && k !in init && k in m0.entries && k in m0.dirty
    ensures Rebased(m0, RebaseOne(m, k), init + [k])
  {
    hide AllRebased, Untouched, RebaseOne;
    RebaseOneUntouched(m0, m, init, k);
    RebaseOneAll(m0, m, init, k);
    RebaseOneKeys(m, k);
  }

  lemma RebaseOneUntouched(m0: Memory, m: Memory, init: seq<Key>, k: Key)
    requires Untouched(m0, m, init) && k !in init && k in m0.entries
    ensures m.entries[k] == m0.entries[k]
    ensures Untouched(m0, RebaseOne(m, k), init + [k])
  {
    var keys := init + [k];
    assert forall j :: j !in keys <==> j !in init && j != k;
  }

  lemma RebaseOneKeys(m: Memory, k: Key)
    requires k in m.entries && k in m.dirty
    ensures var n := RebaseOne(m, k);
      && n == m.(entries := n.entries, dirty := n.dirty, revision := m.revision + 1)
      && n.entries.Keys == m.entries.Keys && n.dirty.Keys == m.dirty.Keys && |n.entries| == |m.entries|
  {
    var n := RebaseOne(m, k);
    assert n.entries.Keys == m.entries.Keys && n.dirty.Keys == m.dirty.Keys;
    assert |n.entries| == |n.entries.Keys| && |m.entries| == |m.entries.Keys|;
  }

  lemma RebaseOneAll(m0: Memory, m: Memory, init: seq<Key>, k: Key)
    requires AllRebased(m0, m, init) && k !in init && k in m0.entries && k in m.entries && m.entries[k] == m0.entries[k]
    requires m.revision == m0.revision + |init|
    ensures AllRebased(m0, RebaseOne(m, k), init + [k])
  {
    var keys := init + [k];
    forall i | 0 <= i < |keys|
      ensures RebasedAt(m0, RebaseOne(m, k), keys[i], m0.revision + i + 1)
    {
      if i < |init| {
        assert keys[i] == init[i] && init[i] in init;
        assert RebasedAt(m0, m, init[i], m0.revision + i + 1);
      }
    }
  }

  /** The rebase gives the listed keys consecutive fresh revisions and touches nothing else. */
  lemma {:induction false} RebaseKeysExact(m0: Memory, keys: seq<Key>)
    requires forall k :: k in keys ==> k in m0.dirty && k in m0.entries
    requires forall i, j :: 0 <= i < j < |keys| ==> keys[i] != keys[j]
    ensures Rebased(m0, RebaseKeys(m0, keys), keys)
    decreases |keys|
  {
    if keys != [] {
      var init := keys[..|keys| - 1];
      var k := keys[|keys| - 1];
      assert keys == init + [k] && k in keys;
      assert forall j :: j in init ==> j in keys;
      RebaseKeysExact(m0, init);
      RebaseOneExact(m0, RebaseKeys(m0, init), init, k);
    }
  }

  lemma IssuedAt(owner: map<nat, Key>, base: nat, keys: seq<Key>, i: nat)
    requires i < |keys|
    ensures base + i + 1 in Issued(owner, base, keys) && Issued(owner, base, keys)[base + i + 1] == keys[i]
  {
    assert base + i + 1 in Range(base, |keys|);
  }

  lemma IssuedBounds(owner: map<nat, Key>, base: nat, keys: seq<Key>)
    requires forall r :: r in owner ==> 0 < r <= base
    ensures forall r :: r in Issued(owner, base, keys) ==> 0 < r <= base + |keys|
  {
  }

  lemma RebasedEntry(m0: Memory, m: Memory, keys: seq<Key>, owner: map<nat, Key>, k: Key)
    requires AllRebased(m0, m, keys) && k in keys && k in m0.entries && m0.entries[k].key == k
    ensures k in m.entries && k in m.dirty && m.dirty[k] == m.entries[k] && m.entries[k].key == k
    ensures var r := m.entries[k].revision; var owner' := Issued(owner, m0.revision, keys);
            m0.revision < r && r in owner' && owner'[r] == k
  {
    hide Issued;
    var i :| 0 <= i < |keys| && keys[i] == k;
    assert RebasedAt(m0, m, keys[i], m0.revision + i + 1);
    IssuedAt(owner, m0.revision, keys, i);
  }

  lemma RebaseKeepsMemory(m0: Memory, m: Memory, keys: seq<Key>, owner: map<nat, Key>)
    requires MemoryInv(m0, owner) && Rebased(m0, m, keys) && AllDirty(m0)
    requires forall k :: k in m0.dirty ==> k in keys
    ensures MemoryInv(m, Issued(owner, m0.revision, keys))
    ensures forall k :: k in m.dirty ==> m0.revision < m.dirty[k].revision
  {
    hide AllRebased, Issued;
    IssuedBounds(owner, m0.revision, keys);
    forall k | k in m.entries || k in m.dirty
      ensures k in m.entries && k in m.dirty && m.dirty[k] == m.entries[k] && m.entries[k].key == k
      ensures var r := m.entries[k].revision; var owner' := Issued(owner, m0.revision, keys);
              m0.revision < r && r in owner' && owner'[r] == k
    {
      assert k in m0.dirty && k in m0.entries && k in keys;
      RebasedEntry(m0, m, keys, owner, k);
    }
  }

  lemma OpenDoneKeeps(s: System, p: Process, h: Hashes, keys: seq<Key>)
    requires Inv(s, h) && s.proc == Some(p) && p.writer.Opening? && p.writer.todo == [] && IsKeyListing(p.mem.dirty, keys)
    ensures Inv(DoOpened(s, p, keys), h)
    ensures var m := DoOpened(s, p, keys).proc.value.mem;
      && (forall k :: k in m.dirty ==> s.disk.head < m.dirty[k].revision)
      && s.disk.head <= m.revision == Highest(p.mem.revision, s.disk.head) + |keys|
  {
    hide DiskInv, ReaderInv, AdmissionInv, AgreeInv, PendingInv, MemoryInv, IsKeyListing, Issued, RebaseKeys;
    var m0 := p.mem.(revision := Highest(p.mem.revision, p.writer.head));
    var m := RebaseKeys(m0, keys);
    RebaseKeeps(p.mem, p.owner, p.writer.head, keys, s.disk, s.history, s.pruned);
    assert m == Rebase(p.mem, p.writer.head, keys);
  }

  /** The late rebase as a whole: agreement kept, everything renumbered above the journal's head. */
  lemma RebaseKeeps(m: Memory, owner: map<nat, Key>, head: nat, keys: seq<Key>,
                    d: Disk, history: map<nat, Snapshot>, pruned: set<Snapshot>)
    requires MemoryInv(m, owner) && AllDirty(m) && IsKeyListing(m.dirty, keys)
    requires DiskInv(d, history) && d.head == head
    ensures var m' := Rebase(m, head, keys);
      && MemoryInv(m', Issued(owner, Highest(m.revision, head), keys))
      && AgreeInv(false, m', d.commands, pruned)
      && PendingInv(false, history, m'.dirty, Idle)
      && (forall k :: k in m'.dirty ==> head < m'.dirty[k].revision)
      && m' == m.(entries := m'.entries, dirty := m'.dirty, revision := Highest(m.revision, head) + |keys|)
      && (m.entries == map[] ==> m'.entries == map[]) && (m.dirty == map[] ==> m'.dirty == map[])
  {
    hide DiskInv, AgreeInv, PendingInv, MemoryInv, Issued, RebaseKeys, Rebased;
    var m0 := m.(revision := Highest(m.revision, head));
    RaisedKeepsMemory(m, owner, head);
    var m' := RebaseKeys(m0, keys);
    assert Rebased(m0, m', keys) by { DirtyCached(m, owner); RebaseKeysExact(m0, keys); }
    RebaseKeepsMemory(m0, m', keys, owner);
    hide IsKeyListing;
    RebasedClean(m0, m', keys, d.commands, pruned);
    RebasedAhead(d, history, m0.revision, m'.dirty);
  }

  lemma DirtyCached(m: Memory, owner: map<nat, Key>)
    requires MemoryInv(m, owner)
    ensures forall k :: k in m.dirty ==> k in m.entries
  {
  }

  lemma RaisedKeepsMemory(m: Memory, owner: map<nat, Key>, head: nat)
    requires MemoryInv(m, owner)
    ensures MemoryInv(m.(revision := Highest(m.revision, head)), owner)
  {
  }

  lemma RebasedClean(m0: Memory, m: Memory, keys: seq<Key>, commands: map<Key, Snapshot>, pruned: set<Snapshot>)
    requires Rebased(m0, m, keys) && AllDirty(m0)
    ensures AgreeInv(false, m, commands, pruned)
    ensures m0.entries == map[] ==> m.entries == map[]
    ensures m0.dirty == map[] ==> m.dirty == map[]
    ensures m == m0.(entries := m.entries, dirty := m.dirty, revision := m0.revision + |keys|)
  {
  }

  lemma RebasedAhead(d: Disk, history: map<nat, Snapshot>, base: nat, dirty: map<Key, Snapshot>)
    requires DiskInv(d, history) && d.head <= base
    requires forall k :: k in dirty ==> base < dirty[k].revision
    ensures PendingInv(false, history, dirty, Idle)
  {
    forall k | k in dirty
      ensures Ahead(history, dirty[k])
    {
      FreshAhead(history, d.head, dirty[k]);
    }
  }

  lemma OpenStartKeeps(s: System, p: Process, h: Hashes, todo: seq<Snapshot>, head: nat)
    requires Inv(s, h) && s.proc == Some(p) && !p.connected && p.writer.Idle?
    requires IsHead(s.disk, head) && IsUnfinished(s.disk, p.boot, todo)
    ensures Inv(Put(s, p, p.mem, Opening(todo, head)), h)
  {
    hide ReaderInv, MemoryInv, AdmissionInv, AllDirty, AgreeInv, CommandsInv, OwnedInv;
    assert head == s.disk.head;
  }

  lemma OpenFailKeeps(s: System, p: Process, h: Hashes, error: string)
    requires Inv(s, h) && s.proc == Some(p) && !p.connected
    ensures Inv(Put(s, p, p.mem.(error := error), Idle), h)
  {
    hide DiskInv, ReaderInv, AdmissionInv;
    var m := p.mem.(error := error);
    assert MemoryInv(m, p.owner);
    assert AgreeInv(p.unreported, m, s.disk.commands, s.pruned);
  }

  lemma {:induction false} RecoverSaveKeeps(s: System, p: Process, h: Hashes, now: nat)
    requires Inv(s, h) && s.proc == Some(p) && p.writer.Opening? && p.writer.todo != []
    ensures Inv(DoRecover(s, p, now), h)
    ensures var was, d := p.writer.todo[0], DoRecover(s, p, now).disk;
            var v := was.(revision := s.disk.head + 1, phase := Unknown, auditIncomplete := true, updated := now);
      && s.disk.head + 1 !in s.history && d.head == s.disk.head + 1
      && d.events == s.disk.events[d.head := v] && d.commands == s.disk.commands[v.key := v]
  {
    hide DiskInv, ReaderInv, MemoryInv, AdmissionInv, Ahead, OpeningInv, AgreeInv;
    var todo := p.writer.todo;
    var v := Recovered(todo[0], p.writer.head + 1, now);
    assert p.writer.head == s.disk.head by { RecoverKeepsOpening(s.disk, p.writer, v); }
    RecoverFresh(s.disk, s.history, v);
    InsertAhead(s.disk, s.history, v);
    InsertKeepsDisk(false, s.disk, s.history, v);
    InsertKeepsReader(s.reader, s.disk, s.history, v);
    RecoverKeepsOpening(s.disk, p.writer, v);
    AllDirtyAgrees(p.unreported, p.mem, Save(s.disk, v).commands, s.pruned);
  }

  lemma AllDirtyAgrees(loose: bool, m: Memory, commands: map<Key, Snapshot>, pruned: set<Snapshot>)
    requires AllDirty(m)
    ensures AgreeInv(loose, m, commands, pruned)
  {
  }

  lemma RecoverKeepsOpening(d: Disk, w: Writer, v: Snapshot)
    requires w.Opening? && w.todo != [] && OpeningInv(d.commands, d.head, w)
    requires v.key == w.todo[0].key
    ensures w.head == d.head
    ensures OpeningInv(d.commands[v.key := v], w.head + 1, Opening(w.todo[1..], w.head + 1))
  {
    var todo := w.todo;
    forall x | x in todo[1..]
      ensures x in todo && x.key != v.key
    {
      var i :| 0 <= i < |todo| - 1 && todo[1..][i] == x;
      assert todo[i + 1] == x;
    }
  }

  lemma RecoverFresh(d: Disk, history: map<nat, Snapshot>, v: Snapshot)
    requires DiskInv(d, history) && v.revision == d.head + 1
    ensures Ahead(history, v) && v.revision !in d.events
  {
    FreshAhead(history, d.head, v);
  }

  lemma {:induction false} ConstructKeeps(s: System, p: Process, h: Hashes, inv: Inventory)
    requires Inv(s, h) && s.proc == Some(p) && !p.ready
    ensures Inv(s.(proc := Some(p.(ready := true, inventory := inv))), h)
  {
    hide DiskInv, ReaderInv, AgreeInv, MemoryInv, PendingInv, BatchInv, SavedInv, OpeningInv;
  }

  // -------------------------------------------------------------- event pages

  /** Rows is sound: ascending, inside the window, of this manager. */
  lemma AscendingPrepend(v: Snapshot, rows: seq<Snapshot>)
    requires Ascending(rows) && forall x :: x in rows ==> v.revision < x.revision
    ensures Ascending([v] + rows)
  {
    assert forall i :: 0 <= i < |rows| ==> rows[i] in rows;
  }

  lemma {:induction false} RowsSound(events: map<nat, Snapshot>, manager: string, after: nat, ceiling: nat, limit: nat)
    requires forall r :: r in events ==> events[r].revision == r
    ensures var rows := Rows(events, manager, after, ceiling, limit);
      && Ascending(rows)
      && (forall v :: v in rows ==>
            after < v.revision <= ceiling && v.key.manager == manager && v.revision in events && events[v.revision] == v)
    decreases ceiling - after
  {
    hide Ascending;
    if after < ceiling && limit != 0 {
      if after + 1 in events && events[after + 1].key.manager == manager {
        RowsSound(events, manager, after + 1, ceiling, limit - 1);
        AscendingPrepend(events[after + 1], Rows(events, manager, after + 1, ceiling, limit - 1));
      } else {
        RowsSound(events, manager, after + 1, ceiling, limit);
      }
    } else {
      EmptyAscends();
    }
  }

  lemma EmptyAscends()
    ensures Ascending([])
  {
  }

  /** Rows is complete up to its last row, and up to the ceiling when the limit was not reached. */
  lemma {:induction false} RowsComplete(events: map<nat, Snapshot>, manager: string, after: nat, ceiling: nat, limit: nat, r: nat)
    requires forall r :: r in events ==> events[r].revision == r
    requires r in events && after < r <= ceiling && events[r].key.manager == manager
    requires var rows := Rows(events, manager, after, ceiling, limit);
             |rows| < limit || (rows != [] && r <= rows[|rows| - 1].revision)
    ensures events[r] in Rows(events, manager, after, ceiling, limit)
    decreases ceiling - after
  {
    var rows := Rows(events, manager, after, ceiling, limit);
    if after + 1 in events && events[after + 1].key.manager == manager {
      if r != after + 1 {
        RowsComplete(events, manager, after + 1, ceiling, limit - 1, r);
      }
    } else {
      RowsComplete(events, manager, after + 1, ceiling, limit, r);
    }
  }

  lemma {:induction false} FittingPrefix(rows: seq<Snapshot>, bytes: nat, first: bool)
    ensures Fitting(rows, bytes, first) <= rows
    ensures first && rows != [] ==> Fitting(rows, bytes, first) != []
  {
    if rows != [] && (first || bytes + rows[0].size <= PAGE_BYTES) {
      FittingPrefix(rows[1..], bytes + rows[0].size, false);
      assert rows == [rows[0]] + rows[1..];
    }
  }

  lemma PageSound(d: Disk, manager: string, after: nat, ceiling: nat, limit: nat)
    requires forall r :: r in d.events ==> d.events[r].revision == r
    ensures var items := PageItems(d, manager, after, ceiling, limit);
            var cursor := Cursor(items, after);
      && Ascending(items)
      && (items != [] ==> after < cursor <= ceiling)
      && (forall v :: v in items ==>
            v.revision in d.events && d.events[v.revision] == v && v.key.manager == manager && after < v.revision <= cursor)
  {
    var rows := Rows(d.events, manager, after, ceiling, limit);
    var items := PageItems(d, manager, after, ceiling, limit);
    RowsSound(d.events, manager, after, ceiling, limit);
    FittingPrefix(rows, 0, true);
    hide Rows, Fitting, PageItems;
    forall i | 0 <= i < |items|
      ensures items[i] == rows[i] && rows[i] in rows
    {
    }
    if items != [] {
      assert items[|items| - 1] in rows;
    }
  }

  /** A query returns no more rows than its limit, and all of them if it returns fewer. */
  lemma {:induction false} RowsAll(events: map<nat, Snapshot>, manager: string, after: nat, ceiling: nat, limit: nat)
    ensures var rows := Rows(events, manager, after, ceiling, limit);
      && |rows| <= limit
      && (|rows| < limit ==> forall r :: r in events && after < r <= ceiling && events[r].key.manager == manager ==> events[r] in rows)
    decreases ceiling - after
  {
    if after < ceiling && limit > 0 {
      if after + 1 in events && events[after + 1].key.manager == manager {
        RowsAll(events, manager, after + 1, ceiling, limit - 1);
      } else {
        RowsAll(events, manager, after + 1, ceiling, limit);
      }
    }
  }

  lemma PageComplete(d: Disk, manager: string, after: nat, ceiling: nat, limit: nat, v: Snapshot)
    requires forall r :: r in d.events ==> d.events[r].revision == r
    requires v.revision in d.events && d.events[v.revision] == v && v.key.manager == manager
    requires after < v.revision <= Cursor(PageItems(d, manager, after, ceiling, limit), after)
    ensures v in PageItems(d, manager, after, ceiling, limit)
  {
    var rows := Rows(d.events, manager, after, ceiling, limit);
    var items := PageItems(d, manager, after, ceiling, limit);
    RowsSound(d.events, manager, after, ceiling, limit);
    FittingPrefix(rows, 0, true);
    PageSound(d, manager, after, ceiling, limit);
    var last := |items| - 1;
    assert items[last] == rows[last];
    assert rows[last].revision <= rows[|rows| - 1].revision;
    RowsComplete(d.events, manager, after, ceiling, limit, v.revision);
    hide Rows, Fitting, PageItems;
    var i :| 0 <= i < |rows| && rows[i] == v;
    assert i <= last;
    assert items[i] == rows[i];
  }

  /** A page lists exactly the manager's events between its two cursors, in order. */
  lemma PageExact(d: Disk, manager: string, after: nat, ceiling: nat, limit: nat)
    requires forall r :: r in d.events ==> d.events[r].revision == r
    ensures var items := PageItems(d, manager, after, ceiling, limit);
            var cursor := Cursor(items, after);
      && Ascending(items)
      && (items != [] ==> after < cursor <= ceiling)
      && (forall v :: v in items <==>
            v.revision in d.events && d.events[v.revision] == v && v.key.manager == manager && after < v.revision <= cursor)
  {
    PageSound(d, manager, after, ceiling, limit);
    hide PageItems;
    var items := PageItems(d, manager, after, ceiling, limit);
    forall v: Snapshot | v.revision in d.events && d.events[v.revision] == v && v.key.manager == manager
                         && after < v.revision <= Cursor(items, after)
      ensures v in items
    {
      PageComplete(d, manager, after, ceiling, limit, v);
    }
  }

  /** The reader's listing grows by the page. */
  lemma PageKeepsReader(q: Reader, d: Disk, history: map<nat, Snapshot>, ceiling: nat, limit: nat)
    requires DiskInv(d, history) && ReaderInv(q, d.events, history)
    ensures var items := PageItems(d, q.manager, q.cursor, ceiling, limit);
            ReaderInv(q.(cursor := Cursor(items, q.cursor), listed := q.listed + items), d.events, history)
  {
    PageExact(d, q.manager, q.cursor, ceiling, limit);
    var items := PageItems(d, q.manager, q.cursor, ceiling, limit);
    hide PageItems, CommandsInv, OwnedInv;
    var listed := q.listed + items;
    forall i, j | 0 <= i < j < |listed|
      ensures listed[i].revision < listed[j].revision
    {
      if i < |q.listed| {
        assert listed[i] in q.listed;
        if j >= |q.listed| {
          assert listed[j] == items[j - |q.listed|] && items[j - |q.listed|] in items;
        }
      }
    }
    assert Ascending(listed);
  }

  lemma CeilingBelowDirty(m: Memory, owner: map<nat, Key>, ceiling: nat, c: nat)
    requires DirtyInv(m) && CacheInv(m, owner) && IsCeiling(m, ceiling) && c <= ceiling
    ensures Beyond(c, m.dirty, []) && c <= m.revision
  {
    forall k | k in m.dirty
      ensures c < m.dirty[k].revision <= m.revision
    {
      assert m.entries[k] == m.dirty[k] && m.entries[k].revision in owner;
    }
  }

  lemma {:induction false} PageKeeps(s: System, p: Process, h: Hashes, ceiling: nat, limit: nat)
    requires Inv(s, h) && s.proc == Some(p) && p.connected && p.writer.Idle? && IsCeiling(p.mem, ceiling)
    ensures Inv(DoPage(s, ceiling, limit), h)
  {
    hide ReaderInv, AdmissionInv, AgreeInv, PageItems, PendingInv, CommandsInv, OwnedInv;
    PageKeepsReader(s.reader, s.disk, s.history, ceiling, limit);
    PageExact(s.disk, s.reader.manager, s.reader.cursor, ceiling, limit);
    var items := PageItems(s.disk, s.reader.manager, s.reader.cursor, ceiling, limit);
    if items != [] {
      assert items[|items| - 1] in items;
      CeilingBelowDirty(p.mem, p.owner, ceiling, Cursor(items, s.reader.cursor));
    }
  }

  // ----------------------------------------------------------------- any step

  lemma {:induction false} ActKeeps(s: System, p: Process, h: Hashes, action: Action)
    requires Inv(s, h) && s.proc == Some(p) && Can(s, p, h, action)
    ensures Inv(Act(s, p, h, action), h)
  {
    hide Inv;
    match action
    case OpenStart(todo, head) => OpenStartKeeps(s, p, h, todo, head);
    case RecoverSave(now) => RecoverSaveKeeps(s, p, h, now);
    case OpenFail(error) => OpenFailKeeps(s, p, h, error);
    case OpenDone(keys) => OpenDoneKeeps(s, p, h, keys);
    case Construct(inv) => ConstructKeeps(s, p, h, inv);
    case Admit(q, lookup, victim, now) => AdmitKeeps(s, p, h, q, lookup, victim, now);
    case Report(port, ack, change, now) => ReportKeeps(s, p, h, port, ack, change, now);
    case SetError(error) => DegradeKeeps(s, p, h, error);
    case CloneBatch(batch) => CloneBatchKeeps(s, p, h, batch);
    case WriteGap => WriteGapKeeps(s, h);
    case ReadGap => ReadGapKeeps(s, p, h);
    case Commit => CommitKeeps(s, p, h);
    case AckCommit => AckCommitKeeps(s, p, h);
    case SaveFail(error) => SaveFailKeeps(s, p, h, error);
    case CommitUnreported(error) => UnreportedKeeps(s, p, h, error);
    case FlushDone => FlushDoneKeeps(s, p, h);
    case Retention(cutoff, keep) => RetentionKeeps(s, p, h, cutoff, keep);
    case Page(ceiling, limit) => PageKeeps(s, p, h, ceiling, limit);
  }

  lemma CrashKeeps(s: System, h: Hashes)
    requires Inv(s, h)
    ensures Inv(s.(proc := None), h)
  {
  }

  lemma BootKeeps(s: System, h: Hashes, boot: nat)
    requires Inv(s, h) && s.proc.None?
    ensures Inv(Apply(s, h, Boot(boot)), h)
  {
    hide DiskInv, ReaderInv;
  }

  lemma {:induction false} StepKeeps(s: System, h: Hashes, step: Step)
    requires Inv(s, h) && Enabled(s, h, step)
    ensures Inv(Apply(s, h, step), h)
  {
    hide Inv, Can, Act;
    match step
    case Crash => CrashKeeps(s, h);
    case Boot(boot) => BootKeeps(s, h, boot);
    case Inside(action) => ActKeeps(s, s.proc.value, h, action);
  }
}
