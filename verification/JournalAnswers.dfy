/** What a repeated command is answered, and whose unfinished rows a journal holds, over every run. */
module JournalAnswers {
  import opened Basics
  import opened JournalModel
  import opened JournalProtocol
  import opened JournalProofs
  import opened JournalTheorems
  import opened JournalMemory

  // ------------------------------------------------------------ where entries come from

  /** Entries keep their content hash and their boot identity. */
  ghost predicate Inherited(m: Memory, m': Memory) {
    forall k :: k in m'.entries ==> k in m.entries && m'.entries[k].hash == m.entries[k].hash && m'.entries[k].boot == m.entries[k].boot
  }

  /** Or one of them is the request just reserved. */
  ghost predicate InheritedBut(m: Memory, q: Request, boot: nat, m': Memory) {
    && q.key in m'.entries && m'.entries[q.key].hash == q.hash && m'.entries[q.key].boot == boot
    && forall k :: k in m'.entries && k != q.key ==>
         k in m.entries && m'.entries[k].hash == m.entries[k].hash && m'.entries[k].boot == m.entries[k].boot
  }

  lemma {:induction false} BeginInherits(m: Memory, h: Hashes, inv: Inventory, q: Request, lookup: Lookup, victim: Key, boot: nat, now: nat)
    ensures var (m', outcome) := Begin(m, h, inv, q, lookup, victim, boot, now);
      if outcome == Reserved then q.key !in m.entries && !(h.indexes(q.key) <= m.seen) && InheritedBut(m, q, boot, m')
      else m'.entries == m.entries
  {
    hide Begin;
    BeginCases(m, h, inv, q, lookup, victim, boot, now);
  }

  lemma UpdateInherits(m: Memory, port: string, ack: nat, change: Snapshot -> Snapshot, now: nat)
    requires forall v :: change(v).key == v.key && change(v).boot == v.boot && change(v).hash == v.hash
    ensures Inherited(m, Update(m, port, ack, change, now))
  {
  }

  lemma MarkInherits(m: Memory, error: string)
    requires DirtyInv(m)
    ensures Inherited(m, MarkFailed(m, error))
  {
    MarkExact(m, error);
  }

  lemma {:induction false} RebaseInherits(m: Memory, head: nat, keys: seq<Key>)
    requires DirtyInv(m) && IsKeyListing(m.dirty, keys)
    ensures Inherited(m, Rebase(m, head, keys))
  {
    RebaseRenumbers(m, head, keys);
    hide Rebase;
    var m' := Rebase(m, head, keys);
    forall k | k in m'.entries ensures m'.entries[k].hash == m.entries[k].hash && m'.entries[k].boot == m.entries[k].boot {
      if k in keys { var i :| 0 <= i < |keys| && keys[i] == k; }
    }
  }

  lemma ReadyDirty(s: System, p: Process, h: Hashes)
    requires Inv(s, h) && s.proc == Some(p)
    ensures DirtyInv(p.mem) && forall k :: k in p.admitted ==> h.indexes(k) <= p.mem.seen
  {
    hide DiskInv, ReaderInv, WriterInv, AgreeInv, CacheInv, AckInv;
  }

  /** The admission an action makes, if it makes one. */
  ghost predicate Reserves(p: Process, h: Hashes, action: Action) {
    action.Admit? && Begin(p.mem, h, p.inventory, action.request, action.lookup, action.victim, p.boot, action.now).1 == Reserved
  }

  lemma {:induction false} ActInherits(s: System, p: Process, h: Hashes, action: Action)
    requires Inv(s, h) && s.proc == Some(p) && Can(s, p, h, action)
    ensures var t := Act(s, p, h, action);
      && t.proc.Some? && t.proc.value.boot == p.boot
      && (if Reserves(p, h, action)
          then action.request.key !in p.mem.entries && !(h.indexes(action.request.key) <= p.mem.seen)
               && InheritedBut(p.mem, action.request, p.boot, t.proc.value.mem) && t.proc.value.admitted == p.admitted + [action.request.key]
          else Inherited(p.mem, t.proc.value.mem) && t.proc.value.admitted == p.admitted)
  {
    hide Inv, Begin, Update, Rebase, MarkFailed, Prune, PageItems, Insert, InheritedBut, IsBatch, IsUnfinished, IsCeiling, IsInventory;
    ReadyDirty(s, p, h);
    match action
    case Admit(q, lookup, victim, now) => BeginInherits(p.mem, h, p.inventory, q, lookup, victim, p.boot, now);
    case Report(port, ack, change, now) => UpdateInherits(p.mem, port, ack, change, now);
    case SaveFail(error) => MarkInherits(p.mem, error);
    case CommitUnreported(error) => MarkInherits(p.mem, error);
    case OpenDone(keys) => RebaseInherits(p.mem, p.writer.head, keys);
    case _ =>
  }

  // ------------------------------------------------------------------ repeated commands

  /** Reserved in this process with this content, and cached with it if at all. */
  ghost predicate Bound(p: Process, k: Key, hash: nat) {
    k in p.admitted && (k in p.mem.entries ==> p.mem.entries[k].hash == hash)
  }

  lemma {:induction false} ActKeepsBound(s: System, p: Process, h: Hashes, action: Action, k: Key, hash: nat)
    requires Inv(s, h) && s.proc == Some(p) && Can(s, p, h, action) && Bound(p, k, hash)
    ensures var t := Act(s, p, h, action); t.proc.Some? && Bound(t.proc.value, k, hash)
  {
    hide Inv, Act, Can, Reserves;
    ActInherits(s, p, h, action);
    ReadyDirty(s, p, h);
  }

  lemma {:induction false} RunKeepsBound(run: seq<System>, h: Hashes, i: nat, j: nat, k: Key, hash: nat)
    requires IsRun(run, h) && Inv(run[0], h) && i <= j < |run| && forall n :: i <= n <= j ==> run[n].proc.Some?
    requires Bound(run[i].proc.value, k, hash)
    ensures Bound(run[j].proc.value, k, hash)
    decreases j - i
  {
    hide Inv, Can, Act, Bound;
    if i < j {
      RunKeepsBound(run, h, i, j - 1, k, hash);
      RunKeepsInv(run, h);
      assert Next(run[j - 1], h, run[j - 1 + 1]);
      var step :| Enabled(run[j - 1], h, step) && run[j] == Apply(run[j - 1], h, step);
      assert step.Inside?;
      ActKeepsBound(run[j - 1], run[j - 1].proc.value, h, step.action, k, hash);
    }
  }

  /** THEOREM (retries): once a process has reserved a command, a later request under the same identity is
      never reserved again; while the command is cached, it is answered as already known if its content is
      the same and as a conflict if it is not. */
  lemma {:induction false} RetryAnswered(run: seq<System>, h: Hashes, i: nat, j: nat, made: Action, q: Request, lookup: Lookup, victim: Key, now: nat)
    requires IsRun(run, h) && Init(run[0]) && i < j < |run| && forall n :: i <= n <= j ==> run[n].proc.Some?
    requires Can(run[i], run[i].proc.value, h, made) && Reserves(run[i].proc.value, h, made)
    requires run[i + 1] == Act(run[i], run[i].proc.value, h, made) && q.key == made.request.key
    ensures var p := run[j].proc.value; var outcome := Begin(p.mem, h, p.inventory, q, lookup, victim, p.boot, now).1;
      && outcome != Reserved
      && (q.key in p.mem.entries && !Malformed(q) && q.payloadBytes <= 65_536 ==>
            outcome == if q.hash == made.request.hash then AlreadyKnown else ContentConflict)
  {
    hide Inv, Can, Act, Begin, Malformed;
    InitInv(run[0], h);
    RunKeepsInv(run, h);
    var p0, p := run[i].proc.value, run[j].proc.value;
    ActInherits(run[i], p0, h, made);
    assert Bound(run[i + 1].proc.value, q.key, made.request.hash);
    RunKeepsBound(run, h, i + 1, j, q.key, made.request.hash);
    ReadyDirty(run[j], p, h);
    BeginAnswered(p.mem, h, p.inventory, q, lookup, victim, p.boot, now);
  }

  // ------------------------------------------------------------------ unfinished rows

  ghost predicate EntriesOwn(m: Memory, boot: nat) {
    forall k :: k in m.entries ==> m.entries[k].boot == boot
  }

  ghost predicate BatchOwn(batch: seq<Snapshot>, boot: nat) {
    forall v :: v in batch ==> v.boot == boot
  }

  /** Every unfinished row of another boot is in the list. */
  ghost predicate Covered(commands: map<Key, Snapshot>, boot: nat, todo: seq<Snapshot>) {
    forall k :: k in commands && !Ended(commands[k]) && commands[k].boot != boot ==> commands[k] in todo
  }

  /** While the journal is being opened what is left to recover covers the rows of other boots; once it is
      open there are none. */
  ghost predicate OwnRows(s: System) {
    s.proc.Some? ==>
      var p := s.proc.value;
      && EntriesOwn(p.mem, p.boot) && BatchOwn(Batch(p.writer), p.boot)
      && (p.connected ==> Covered(s.disk.commands, p.boot, []))
      && (p.writer.Opening? ==> Covered(s.disk.commands, p.boot, p.writer.todo))
  }

  lemma SaveOwn(d: Disk, v: Snapshot, boot: nat)
    requires Covered(d.commands, boot, []) && v.boot == boot
    ensures Covered(Save(d, v).commands, boot, [])
  {
  }

  lemma PruneOwn(d: Disk, boot: nat, cutoff: nat, keep: nat)
    requires Covered(d.commands, boot, [])
    ensures Covered(Prune(d, cutoff, keep).commands, boot, [])
  {
    hide Expires;
  }

  lemma RecoverOwn(commands: map<Key, Snapshot>, boot: nat, todo: seq<Snapshot>, v: Snapshot)
    requires Covered(commands, boot, todo) && todo != [] && v.key == todo[0].key && Ended(v)
    requires forall k :: k in commands ==> commands[k].key == k
    ensures Covered(commands[v.key := v], boot, todo[1..])
  {
    assert todo == [todo[0]] + todo[1..];
  }

  lemma KeyedRows(s: System, h: Hashes)
    requires Inv(s, h)
    ensures forall k :: k in s.disk.commands ==> s.disk.commands[k].key == k
  {
    hide ReaderInv, ProcessInv, WriterInv, AgreeInv;
  }

  lemma UnfinishedCovers(d: Disk, boot: nat, todo: seq<Snapshot>)
    requires IsUnfinished(d, boot, todo) && forall k :: k in d.commands ==> d.commands[k].key == k
    ensures Covered(d.commands, boot, todo)
  {
    forall k | k in d.commands && !Ended(d.commands[k]) && d.commands[k].boot != boot ensures d.commands[k] in todo {
      EndedIsTerminal(d.commands[k]);
    }
  }

  lemma {:induction false} InheritsOwn(m: Memory, boot: nat, m': Memory, q: Request)
    requires EntriesOwn(m, boot) && (Inherited(m, m') || InheritedBut(m, q, boot, m'))
    ensures EntriesOwn(m', boot)
  {
  }

  lemma BatchFromDirty(m: Memory, batch: seq<Snapshot>, boot: nat)
    requires DirtyInv(m) && EntriesOwn(m, boot) && IsBatch(m, batch)
    ensures BatchOwn(batch, boot)
  {
    hide KeyBefore, HasKey;
  }

  lemma {:induction false} ActEntriesOwn(s: System, p: Process, h: Hashes, action: Action)
    requires Inv(s, h) && s.proc == Some(p) && Can(s, p, h, action) && EntriesOwn(p.mem, p.boot)
    ensures var t := Act(s, p, h, action); t.proc.Some? && t.proc.value.boot == p.boot && EntriesOwn(t.proc.value.mem, p.boot)
  {
    hide Inv, Act, Can, Begin, Inherited, InheritedBut, EntriesOwn;
    ActInherits(s, p, h, action);
    var q := if action.Admit? then action.request else Request(Key("", ""), "", 0, 0, 0, 0);
    InheritsOwn(p.mem, p.boot, Act(s, p, h, action).proc.value.mem, q);
  }

  lemma TailOwn(batch: seq<Snapshot>, boot: nat)
    requires BatchOwn(batch, boot) && batch != []
    ensures BatchOwn(batch[1..], boot) && batch[0].boot == boot
  {
    assert batch[0] in batch;
    assert forall v :: v in batch[1..] ==> v in batch;
  }

  /** Rows and batch; the entries are settled apart. */
  ghost predicate RowsOwn(s: System, p: Process) {
    && BatchOwn(Batch(p.writer), p.boot)
    && (p.connected ==> Covered(s.disk.commands, p.boot, []))
    && (p.writer.Opening? ==> Covered(s.disk.commands, p.boot, p.writer.todo))
  }

  lemma {:induction false} OpeningRowsOwn(s: System, p: Process, h: Hashes, action: Action)
    requires Inv(s, h) && s.proc == Some(p) && Can(s, p, h, action) && RowsOwn(s, p)
    requires action.OpenStart? || action.RecoverSave? || action.OpenDone? || action.OpenFail?
    ensures var t := Act(s, p, h, action); t.proc.Some? && RowsOwn(t, t.proc.value)
  {
    hide Inv, Covered, Rebase, IsUnfinished;
    KeyedRows(s, h);
    ConnectedIdle(s, p, h);
    NothingOwn(p.boot);
    match action
    case OpenStart(todo, head) => UnfinishedCovers(s.disk, p.boot, todo);
    case RecoverSave(now) =>
      RecoverSaveKeeps(s, p, h, now);
      var v := p.writer.todo[0].(revision := s.disk.head + 1, phase := Unknown, auditIncomplete := true, updated := now);
      RecoverOwn(s.disk.commands, p.boot, p.writer.todo, v);
      hide DoRecover;
      RecoverLeaves(s, p, now);
    case _ =>
  }

  lemma RecoverLeaves(s: System, p: Process, now: nat)
    requires p.writer.Opening? && p.writer.todo != []
    ensures DoRecover(s, p, now).proc == Some(p.(writer := Opening(p.writer.todo[1..], p.writer.head + 1)))
  {
  }

  lemma ConnectedIdle(s: System, p: Process, h: Hashes)
    requires Inv(s, h) && s.proc == Some(p)
    ensures p.connected ==> !p.writer.Opening?
  {
    hide DiskInv, ReaderInv, ProcessInv, AgreeInv, PendingInv, BatchInv, SavedInv;
  }

  lemma {:induction false} WriterRowsOwn(s: System, p: Process, h: Hashes, action: Action)
    requires Inv(s, h) && s.proc == Some(p) && Can(s, p, h, action) && RowsOwn(s, p) && EntriesOwn(p.mem, p.boot)
    requires action.Commit? || action.CommitUnreported? || action.CloneBatch? || action.Retention?
    ensures var t := Act(s, p, h, action); t.proc.Some? && RowsOwn(t, t.proc.value)
  {
    hide Inv, Covered, BatchOwn, IsBatch, MarkFailed, Save, Prune, Recorded, EntriesOwn;
    FlushingConnected(s, p, h);
    ReadyDirty(s, p, h);
    NothingOwn(p.boot);
    if action.CloneBatch? {
      BatchFromDirty(p.mem, action.batch, p.boot);
    } else if action.Retention? {
      PruneOwn(s.disk, p.boot, action.cutoff, action.keep);
    } else {
      TailOwn(p.writer.batch, p.boot);
      SaveOwn(s.disk, p.writer.batch[0], p.boot);
    }
  }

  lemma NothingOwn(boot: nat)
    ensures BatchOwn([], boot)
  {
  }

  lemma FlushingConnected(s: System, p: Process, h: Hashes)
    requires Inv(s, h) && s.proc == Some(p)
    ensures p.writer.Flushing? || p.writer.Committed? ==> p.connected
  {
    hide DiskInv, ReaderInv, ProcessInv, AgreeInv, PendingInv, BatchInv, SavedInv;
  }

  lemma {:induction false} OtherRowsOwn(s: System, p: Process, h: Hashes, action: Action)
    requires s.proc == Some(p) && Can(s, p, h, action) && RowsOwn(s, p)
    requires action.Construct? || action.Admit? || action.Report? || action.SetError? || action.WriteGap? || action.ReadGap?
             || action.AckCommit? || action.SaveFail? || action.FlushDone? || action.Page?
    ensures var t := Act(s, p, h, action); t.proc.Some? && RowsOwn(t, t.proc.value)
  {
    hide Covered, BatchOwn, Begin, Update, MarkFailed, AckSaved, PageItems, IsCeiling, IsInventory;
    NothingOwn(p.boot);
  }

  lemma {:induction false} ActOwnRows(s: System, p: Process, h: Hashes, action: Action)
    requires Inv(s, h) && s.proc == Some(p) && Can(s, p, h, action) && OwnRows(s)
    ensures OwnRows(Act(s, p, h, action))
  {
    hide Inv, Act, Can, Covered, EntriesOwn, BatchOwn;
    ActEntriesOwn(s, p, h, action);
    if action.OpenStart? || action.RecoverSave? || action.OpenDone? || action.OpenFail? {
      OpeningRowsOwn(s, p, h, action);
    } else if action.Commit? || action.CommitUnreported? || action.CloneBatch? || action.Retention? {
      WriterRowsOwn(s, p, h, action);
    } else {
      OtherRowsOwn(s, p, h, action);
    }
  }

  lemma {:induction false} RunOwnRows(run: seq<System>, h: Hashes, i: nat)
    requires IsRun(run, h) && Inv(run[0], h) && OwnRows(run[0]) && i < |run|
    ensures OwnRows(run[i])
    decreases i
  {
    hide Inv, Can, Act, OwnRows;
    if i > 0 {
      RunOwnRows(run, h, i - 1);
      RunKeepsInv(run, h);
      assert Next(run[i - 1], h, run[i - 1 + 1]);
      var step :| Enabled(run[i - 1], h, step) && run[i] == Apply(run[i - 1], h, step);
      match step
      case Inside(action) => ActOwnRows(run[i - 1], run[i - 1].proc.value, h, action);
      case _ => StoppedOrFresh(run[i]);
    }
  }

  lemma StoppedOrFresh(s: System)
    requires s.proc.Some? ==> s.proc.value.mem == EMPTY_MEMORY && s.proc.value.writer == Idle && !s.proc.value.connected
    ensures OwnRows(s)
  {
  }

  /** THEOREM (recovery): in every reachable state of a process that has its journal open, each stored
      command that has not ended is the process's own: nothing an earlier process left unfinished stays
      so, through crashes at any moment of the recovery. */
  lemma {:induction false} UnfinishedAreOwn(run: seq<System>, h: Hashes, i: nat, k: Key)
    requires IsRun(run, h) && Init(run[0]) && i < |run| && run[i].proc.Some? && run[i].proc.value.connected
    requires k in run[i].disk.commands && !Ended(run[i].disk.commands[k])
    ensures run[i].disk.commands[k].boot == run[i].proc.value.boot
  {
    hide Inv, Next;
    InitInv(run[0], h);
    StoppedOrFresh(run[0]);
    RunOwnRows(run, h, i);
  }

  // ------------------------------------------------------------------- the order of keys

  /** The text under which a key is kept. */
  function Joined(k: Key): string { k.manager + "\0" + k.command }

  /** Pairs are ordered as their joined texts are, and are told apart by them. */
  lemma {:induction false} JoinedOrder(a: Key, b: Key)
    requires '\0' !in a.manager && '\0' !in b.manager
    ensures KeyBefore(a, b) <==> Before(Joined(a), Joined(b))
    ensures Joined(a) == Joined(b) ==> a == b
  {
    JoinedTexts(a.manager, b.manager, a.command, b.command);
  }

  lemma {:induction false} JoinedTexts(x: string, y: string, c: string, d: string)
    requires '\0' !in x && '\0' !in y
    ensures Before(x + "\0" + c, y + "\0" + d) <==> Before(x, y) || (x == y && Before(c, d))
    ensures x + "\0" + c == y + "\0" + d ==> x == y && c == d
    decreases |x|
  {
    var p, q := x + "\0" + c, y + "\0" + d;
    if x == [] && y == [] {
      assert p[1..] == c && q[1..] == d;
    } else if x == [] {
      assert p[0] == '\0' && q[0] == y[0] && y[0] in y;
    } else if y == [] {
      assert q[0] == '\0' && p[0] == x[0] && x[0] in x;
    } else {
      assert p[0] == x[0] && q[0] == y[0] && p[1..] == x[1..] + "\0" + c && q[1..] == y[1..] + "\0" + d;
      assert x == [x[0]] + x[1..] && y == [y[0]] + y[1..];
      JoinedTexts(x[1..], y[1..], c, d);
    }
  }
}
