/** Exactly which event cursors are safe for ever. */
module JournalExactness {
  import opened Basics
  import opened JournalModel
  import opened JournalProtocol
  import opened JournalProofs
  import opened JournalTheorems

  /** No continuation of `s` stores an event at or below `c` that is not stored in `s`: a reader that has
      listed everything up to `c` misses nothing. */
  ghost predicate NeverLate(s: System, h: Hashes, c: nat) {
    forall run :: IsRun(run, h) && run[0] == s ==> NothingLate(s, run[|run| - 1], c)
  }

  /** A run from `s` to `t`. */
  ghost predicate Reaches(s: System, h: Hashes, t: System) {
    exists run :: IsRun(run, h) && run[0] == s && run[|run| - 1] == t
  }

  lemma Stays(s: System, h: Hashes)
    ensures Reaches(s, h, s)
  {
    assert IsRun([s], h) && [s][0] == s && [s][|[s]| - 1] == s;
  }

  lemma {:induction false} Continue(s: System, h: Hashes, t: System, step: Step)
    requires Reaches(s, h, t) && Enabled(t, h, step)
    ensures Reaches(s, h, Apply(t, h, step))
  {
    hide Enabled, Apply;
    var run :| IsRun(run, h) && run[0] == s && run[|run| - 1] == t;
    var last := Apply(t, h, step);
    var run' := run + [last];
    assert Next(t, h, last);
    forall i | 0 <= i < |run'| - 1
      ensures Next(run'[i], h, run'[i + 1])
    {
      if i < |run| - 1 {
        assert run'[i] == run[i] && run'[i + 1] == run[i + 1];
      }
    }
    assert IsRun(run', h) && run'[|run'| - 1] == last;
  }

  lemma ReachedInv(s: System, h: Hashes, t: System)
    requires Inv(s, h) && Reaches(s, h, t)
    ensures Inv(t, h)
  {
    hide Inv;
    var run :| IsRun(run, h) && run[0] == s && run[|run| - 1] == t;
    RunKeepsInv(run, h);
  }

  lemma LateRun(s: System, h: Hashes, t: System, r: nat, c: nat)
    requires Reaches(s, h, t) && r in t.disk.events && r !in s.disk.events && r <= c
    ensures !NeverLate(s, h, c)
  {
    hide Next;
    var run :| IsRun(run, h) && run[0] == s && run[|run| - 1] == t;
    assert !NothingLate(s, run[|run| - 1], c);
  }

  // ------------------------------------------------------------------- full batches

  lemma KeyOrder(a: Key, b: Key)
    ensures a == b || KeyBefore(a, b) || KeyBefore(b, a)
    ensures KeyBefore(a, b) ==> a != b
  {
    hide Before;
    BeforeTotal(a.manager, b.manager);
    BeforeTotal(a.command, b.command);
  }

  lemma KeyOrderTransitive(a: Key, b: Key, c: Key)
    requires KeyBefore(a, b) && KeyBefore(b, c)
    ensures KeyBefore(a, c)
  {
    hide Before;
    if Before(a.manager, b.manager) && Before(b.manager, c.manager) {
      BeforeTransitive(a.manager, b.manager, c.manager);
    }
    if Before(a.command, b.command) && Before(b.command, c.command) {
      BeforeTransitive(a.command, b.command, c.command);
    }
  }

  lemma {:induction false} FirstKey(keys: set<Key>) returns (k: Key)
    requires keys != {}
    ensures k in keys && forall j :: j in keys && j != k ==> KeyBefore(k, j)
    decreases |keys|
  {
    hide KeyBefore;
    k :| k in keys;
    if keys != {k} {
      var m := FirstKey(keys - {k});
      KeyOrder(k, m);
      if KeyBefore(m, k) {
        k := m;
      } else {
        forall j | j in keys && j != k ensures KeyBefore(k, j) {
          if j != m { KeyOrderTransitive(k, m, j); }
        }
      }
    }
  }

  /** The first `n` keys in order. */
  lemma {:induction false} FirstKeys(keys: set<Key>, n: nat) returns (list: seq<Key>)
    requires n <= |keys|
    ensures |list| == n && forall k :: k in list ==> k in keys
    ensures forall i, j :: 0 <= i < j < n ==> KeyBefore(list[i], list[j])
    ensures forall j, k :: j in keys && j !in list && k in list ==> KeyBefore(k, j)
    decreases n
  {
    hide KeyBefore;
    if n == 0 {
      list := [];
    } else {
      var first := FirstKey(keys);
      var rest := FirstKeys(keys - {first}, n - 1);
      list := [first] + rest;
      assert forall i :: 0 <= i < |rest| ==> rest[i] in rest;
    }
  }

  /** The batch the writer takes from a dirty map. */
  lemma FirstBatch(m: Memory) returns (batch: seq<Snapshot>)
    requires forall k :: k in m.dirty ==> m.dirty[k].key == k
    ensures IsBatch(m, batch) && |batch| == if |m.dirty| < 256 then |m.dirty| else 256
  {
    hide KeyBefore;
    var n := if |m.dirty| < BATCH_LIMIT then |m.dirty| else BATCH_LIMIT;
    assert |m.dirty.Keys| == |m.dirty|;
    var list := FirstKeys(m.dirty.Keys, n);
    assert forall i :: 0 <= i < |list| ==> list[i] in list;
    batch := seq(n, i requires 0 <= i < n => m.dirty[list[i]]);
    forall i, j | 0 <= i < j < |batch| ensures KeyBefore(batch[i].key, batch[j].key) && batch[i].key != batch[j].key {
      KeyOrder(batch[i].key, batch[j].key);
    }
    forall k, v | k in m.dirty && !HasKey(batch, k) && v in batch ensures KeyBefore(v.key, k) {
      forall i | 0 <= i < n ensures list[i] != k {
        assert batch[i].key == list[i];
      }
      assert k !in list;
    }
  }

  // ------------------------------------------------------ dirty evidence gets committed

  /** The writer holds these dirty snapshots. */
  ghost predicate Holding(t: System, p: Process, batch: seq<Snapshot>) {
    && t.proc == Some(p) && p.ready && p.connected && p.writer == Flushing(batch) && DistinctKeys(batch)
    && forall v :: v in batch ==> v.key in p.mem.dirty && p.mem.dirty[v.key] == v
  }

  ghost predicate Resting(t: System, p: Process) {
    t.proc == Some(p) && p.ready && p.connected && p.writer.Idle?
  }

  /** The process after the first snapshot of a batch was saved and acknowledged. */
  function SavedOne(p: Process, batch: seq<Snapshot>): Process
    requires batch != []
  {
    p.(mem := AckSaved(p.mem, batch[0]), writer := Flushing(batch[1..]))
  }

  lemma SaveSteps(t: System, h: Hashes, p: Process, batch: seq<Snapshot>)
    requires t.proc == Some(p) && p.writer == Flushing(batch) && batch != []
    ensures Enabled(t, h, Inside(Commit))
    ensures var t1 := Apply(t, h, Inside(Commit));
      && Enabled(t1, h, Inside(AckCommit))
      && var t2 := Apply(t1, h, Inside(AckCommit));
         t2.proc == Some(SavedOne(p, batch)) && t2.disk == Save(t.disk, batch[0])
  {
    hide AckSaved, Recorded, Save;
  }

  lemma SavedStillHolding(t: System, p: Process, batch: seq<Snapshot>, t2: System)
    requires Holding(t, p, batch) && batch != [] && t2.proc == Some(SavedOne(p, batch))
    ensures Holding(t2, SavedOne(p, batch), batch[1..])
    ensures SavedOne(p, batch).mem.dirty == p.mem.dirty - {batch[0].key}
  {
    assert batch[0] in batch;
    forall v | v in batch[1..] ensures v in batch && v.key != batch[0].key {
      var i :| 0 <= i < |batch[1..]| && batch[1..][i] == v;
      assert batch[i + 1] == v;
    }
  }

  lemma SaveFirst(s: System, h: Hashes, t: System, p: Process, batch: seq<Snapshot>) returns (t2: System)
    requires Inv(t, h) && Reaches(s, h, t) && Holding(t, p, batch) && batch != []
    ensures Reaches(s, h, t2) && Holding(t2, SavedOne(p, batch), batch[1..])
    ensures batch[0].revision in t2.disk.events && forall r :: r in t.disk.events ==> r in t2.disk.events
    ensures SavedOne(p, batch).mem.dirty == p.mem.dirty - {batch[0].key}
  {
    hide Inv, Reaches, Enabled, Apply, SavedOne;
    SaveSteps(t, h, p, batch);
    var t1 := Apply(t, h, Inside(Commit));
    t2 := Apply(t1, h, Inside(AckCommit));
    Continue(s, h, t, Inside(Commit));
    Continue(s, h, t1, Inside(AckCommit));
    SavedStillHolding(t, p, batch, t2);
  }

  /** A whole batch is saved, acknowledged and let go. */
  lemma {:induction false} FlushRun(s: System, h: Hashes, t: System, p: Process, batch: seq<Snapshot>) returns (t': System, p': Process)
    requires Inv(s, h) && Reaches(s, h, t) && Holding(t, p, batch)
    ensures Reaches(s, h, t') && Resting(t', p')
    ensures forall k :: k in p'.mem.dirty <==> k in p.mem.dirty && !HasKey(batch, k)
    ensures forall k :: k in p'.mem.dirty ==> p'.mem.dirty[k] == p.mem.dirty[k]
    ensures forall r :: r in t.disk.events ==> r in t'.disk.events
    ensures forall v :: v in batch ==> v.revision in t'.disk.events
    decreases |batch|
  {
    hide Inv, Reaches, Enabled, Apply, SavedOne, Holding, Resting, HasKey;
    ReachedInv(s, h, t);
    if batch == [] {
      FlushEnds(t, h, p);
      t', p' := Apply(t, h, Inside(FlushDone)), p.(writer := Idle);
      Continue(s, h, t, Inside(FlushDone));
    } else {
      var t2 := SaveFirst(s, h, t, p, batch);
      t', p' := FlushRun(s, h, t2, SavedOne(p, batch), batch[1..]);
      KeySplit(batch);
    }
  }

  lemma FlushEnds(t: System, h: Hashes, p: Process)
    requires Holding(t, p, [])
    ensures Enabled(t, h, Inside(FlushDone))
    ensures var t' := Apply(t, h, Inside(FlushDone)); t'.disk == t.disk && Resting(t', p.(writer := Idle))
    ensures forall k :: !HasKey([], k)
  {
  }

  lemma KeySplit(batch: seq<Snapshot>)
    requires batch != []
    ensures forall k :: HasKey(batch, k) <==> k == batch[0].key || HasKey(batch[1..], k)
    ensures forall v :: v in batch <==> v == batch[0] || v in batch[1..]
  {
    assert batch == [batch[0]] + batch[1..];
    forall k ensures HasKey(batch, k) <==> k == batch[0].key || HasKey(batch[1..], k) {
      if HasKey(batch[1..], k) {
        var i :| 0 <= i < |batch[1..]| && batch[1..][i].key == k;
        assert batch[i + 1].key == k;
      }
      if HasKey(batch, k) {
        var i :| 0 <= i < |batch| && batch[i].key == k;
        if i > 0 { assert batch[1..][i - 1].key == k; }
      }
    }
  }

  /** Round after round of full batches, every dirty snapshot is stored in the end. */
  lemma {:induction false} DirtyReaches(s: System, h: Hashes, t: System, p: Process, k: Key) returns (t': System)
    requires Inv(s, h) && Reaches(s, h, t) && Resting(t, p) && k in p.mem.dirty
    ensures Reaches(s, h, t') && p.mem.dirty[k].revision in t'.disk.events
    decreases |p.mem.dirty|
  {
    ReachedInv(s, h, t);
    DirtyKeyed(t, h, p);
    hide Inv, Reaches, Enabled, Apply, IsBatch;
    var batch := FirstBatch(p.mem);
    CloneStep(t, h, p, batch);
    var t1, p1 := Apply(t, h, Inside(CloneBatch(batch))), p.(writer := Flushing(batch));
    Continue(s, h, t, Inside(CloneBatch(batch)));
    var t2, p2 := FlushRun(s, h, t1, p1, batch);
    if HasKey(batch, k) {
      t' := t2;
      var i :| 0 <= i < |batch| && batch[i].key == k;
      assert batch[i] in batch;
    } else {
      Shrinks(p.mem.dirty, p2.mem.dirty, batch);
      t' := DirtyReaches(s, h, t2, p2, k);
    }
  }

  lemma DirtyKeyed(t: System, h: Hashes, p: Process)
    requires Inv(t, h) && t.proc == Some(p)
    ensures forall k :: k in p.mem.dirty ==> p.mem.dirty[k].key == k
  {
    hide ReaderInv, AgreeInv, AdmissionInv, DiskInv, WriterInv;
  }

  lemma CloneStep(t: System, h: Hashes, p: Process, batch: seq<Snapshot>)
    requires Resting(t, p) && IsBatch(p.mem, batch)
    ensures Enabled(t, h, Inside(CloneBatch(batch)))
    ensures Apply(t, h, Inside(CloneBatch(batch))) == t.(proc := Some(p.(writer := Flushing(batch))))
    ensures Holding(t.(proc := Some(p.(writer := Flushing(batch)))), p.(writer := Flushing(batch)), batch)
    ensures p.mem.dirty != map[] ==> batch != []
    ensures forall v :: v in batch ==> v.key in p.mem.dirty && p.mem.dirty[v.key] == v
  {
  }

  lemma Shrinks(before: map<Key, Snapshot>, after: map<Key, Snapshot>, batch: seq<Snapshot>)
    requires batch != [] && batch[0].key in before
    requires forall k :: k in after <==> k in before && !HasKey(batch, k)
    ensures |after| < |before|
  {
    assert HasKey(batch, batch[0].key);
    assert after.Keys < before.Keys;
    SubsetSize(after.Keys, before.Keys);
    assert |after.Keys| == |after| && |before.Keys| == |before|;
  }

  /** Dirty evidence at or below `c` that is not stored is stored by a run of the writer's own full batches. */
  lemma {:induction false} DirtyIsLate(s: System, p: Process, h: Hashes, k: Key, c: nat)
    requires Inv(s, h) && s.proc == Some(p) && p.ready && p.connected && p.writer.Idle?
    requires k in p.mem.dirty && p.mem.dirty[k].revision <= c && p.mem.dirty[k].revision !in s.disk.events
    ensures !NeverLate(s, h, c)
  {
    hide Inv, Reaches;
    var v := p.mem.dirty[k];
    Stays(s, h);
    var t := DirtyReaches(s, h, s, p, k);
    LateRun(s, h, t, v.revision, c);
  }

  // --------------------------------------------------------- a restart numbers from the head

  function Above(list: seq<nat>): (n: nat)
    ensures forall x :: x in list ==> x < n
  {
    if list == [] then 0
    else
      var n := Above(list[1..]);
      assert list == [list[0]] + list[1..];
      if list[0] < n then n else list[0] + 1
  }

  /** A boot identity no stored row carries. */
  lemma UnusedBoot(d: Disk) returns (boot: nat)
    ensures forall k :: k in d.commands ==> d.commands[k].boot != boot
  {
    var list := ListSet(set k | k in d.commands :: d.commands[k].boot);
    boot := Above(list);
    forall k | k in d.commands ensures d.commands[k].boot != boot {
      assert d.commands[k].boot in list;
    }
  }

  ghost predicate Unfinished(d: Disk, boot: nat, k: Key) {
    k in d.commands && !d.commands[k].Terminal() && d.commands[k].boot != boot
  }

  lemma ListUnfinished(d: Disk, boot: nat) returns (todo: seq<Snapshot>)
    requires forall k :: k in d.commands ==> d.commands[k].key == k
    ensures IsUnfinished(d, boot, todo)
  {
    var keys := ListSet(set k | k in d.commands && Unfinished(d, boot, k));
    assert forall i :: 0 <= i < |keys| ==> keys[i] in keys;
    todo := seq(|keys|, i requires 0 <= i < |keys| => d.commands[keys[i]]);
    forall v: Snapshot | v.key in d.commands && d.commands[v.key] == v && !v.Terminal() && v.boot != boot
      ensures v in todo
    {
      assert Unfinished(d, boot, v.key) && v.key in keys;
      var i :| 0 <= i < |keys| && keys[i] == v.key;
      assert todo[i] == v;
    }
    forall v: Snapshot | v in todo
      ensures v.key in d.commands && d.commands[v.key] == v && !v.Terminal() && v.boot != boot
    {
      var i :| 0 <= i < |todo| && todo[i] == v;
      assert Unfinished(d, boot, keys[i]);
    }
  }

  /** A restarted process about to recover the unfinished rows. */
  function Reopening(s: System, boot: nat, todo: seq<Snapshot>): System {
    s.(proc := Some(Process(boot, false, false, Opening(todo, s.disk.head), EMPTY_MEMORY, Inventory(false, {}), [], map[], false, false)))
  }

  /** A restarted process that opened its journal and could not read the inventory. */
  function Fresh(s: System, boot: nat): Process {
    Process(boot, true, true, Idle, EMPTY_MEMORY.(revision := s.disk.head), Inventory(false, {}), [], map[], false, false)
  }

  function AfterAdmission(p: Process, h: Hashes, q: Request): Process {
    p.(mem := Reserve(p.mem, h, q, p.boot, 0), admitted := p.admitted + [q.key], owner := p.owner[p.mem.revision + 1 := q.key])
  }

  lemma DiskFacts(s: System, h: Hashes)
    requires Inv(s, h)
    ensures IsHead(s.disk, s.disk.head) && s.disk.head + 1 !in s.disk.events
    ensures forall k :: k in s.disk.commands ==> s.disk.commands[k].key == k
  {
    hide ReaderInv, ProcessInv, WriterInv, AgreeInv;
  }

  lemma RestartSteps(s: System, h: Hashes, boot: nat, todo: seq<Snapshot>)
    requires s.proc == None && IsHead(s.disk, s.disk.head) && IsUnfinished(s.disk, boot, todo)
    ensures Enabled(s, h, Boot(boot))
    ensures var t := Apply(s, h, Boot(boot)); var open := Inside(OpenStart(todo, s.disk.head));
            Enabled(t, h, open) && Apply(t, h, open) == Reopening(s, boot, todo)
  {
    hide IsUnfinished, IsHead;
  }

  lemma Reopen(s: System, h: Hashes, boot: nat) returns (todo: seq<Snapshot>)
    requires Inv(s, h)
    ensures Reaches(s, h, Reopening(s, boot, todo))
  {
    hide *;
    DiskFacts(s, h);
    todo := ListUnfinished(s.disk, boot);
    Stays(s, h);
    var down := s.(proc := None);
    CrashOrDown(s, h);
    RestartSteps(down, h, boot, todo);
    Continue(s, h, down, Boot(boot));
    Continue(s, h, Apply(down, h, Boot(boot)), Inside(OpenStart(todo, s.disk.head)));
    SameReopening(s, down, boot, todo);
  }

  lemma CrashOrDown(s: System, h: Hashes)
    ensures Reaches(s, h, s.(proc := None))
  {
    hide Reaches;
    Stays(s, h);
    if s.proc.Some? { Continue(s, h, s, Crash); }
  }

  lemma SameReopening(s: System, down: System, boot: nat, todo: seq<Snapshot>)
    requires down == s.(proc := None)
    ensures Reopening(down, boot, todo) == Reopening(s, boot, todo)
  {
  }

  lemma {:induction false} ConstructAfterRestart(s: System, h: Hashes, boot: nat)
    requires Reaches(s, h, Reopening(s, boot, []))
    ensures Reaches(s, h, s.(proc := Some(Fresh(s, boot))))
  {
    hide Reaches;
    var t := Reopening(s, boot, []);
    Continue(s, h, t, Inside(OpenDone([])));
    var t1 := Apply(t, h, Inside(OpenDone([])));
    assert Rebase(EMPTY_MEMORY, s.disk.head, []) == EMPTY_MEMORY.(revision := s.disk.head);
    Continue(s, h, t1, Inside(Construct(Inventory(false, {}))));
  }

  lemma BeginWhenEmpty(p: Process, h: Hashes, q: Request)
    requires p.mem.entries == map[] && p.mem.seen == {} && p.inventory == Inventory(false, {})
    requires !q.BadIdentity() && q.payloadBytes <= 65_536 && h.indexes(q.key) != {}
    ensures Begin(p.mem, h, p.inventory, q, Absent, q.key, p.boot, 0) == (Reserve(p.mem, h, q, p.boot, 0), Reserved)
  {
    assert !(h.indexes(q.key) <= {});
    hide Reserve;
  }

  /** A reservation with room in the cache, as the machine records it. */
  lemma ReservedRecord(s: System, p: Process, h: Hashes, q: Request)
    requires |p.mem.entries| < CACHE_LIMIT
    requires Begin(p.mem, h, p.inventory, q, Absent, q.key, p.boot, 0) == (Reserve(p.mem, h, q, p.boot, 0), Reserved)
    ensures DoAdmit(s, p, h, q, Absent, q.key, 0) == s.(proc := Some(AfterAdmission(p, h, q)))
  {
    hide Begin, Reserve;
  }

  lemma AdmitFires(s: System, p: Process, h: Hashes, q: Request)
    requires s.proc == Some(p) && p.ready && p.mem.entries == map[] && p.mem.seen == {} && p.inventory == Inventory(false, {})
    requires !q.BadIdentity() && q.payloadBytes <= 65_536 && h.indexes(q.key) != {}
    ensures var step := Inside(Admit(q, Absent, q.key, 0));
            Enabled(s, h, step) && Apply(s, h, step) == s.(proc := Some(AfterAdmission(p, h, q)))
  {
    hide DoAdmit, AfterAdmission, Begin, Reserve, IsVictim;
    BeginWhenEmpty(p, h, q);
    ReservedRecord(s, p, h, q);
    assert !HasTerminal(p.mem.entries);
  }

  lemma RecoverCommits(s: System, h: Hashes, boot: nat, todo: seq<Snapshot>)
    requires todo != [] && s.disk.head + 1 !in s.disk.events
    ensures Enabled(Reopening(s, boot, todo), h, Inside(RecoverSave(0)))
    ensures s.disk.head + 1 in Apply(Reopening(s, boot, todo), h, Inside(RecoverSave(0))).disk.events
  {
  }

  /** A cursor above the durable head is never safe: a restart under an unused boot identity numbers
      from the head again, by recovering an unfinished row or by admitting a request that is not stored. */
  lemma {:induction false} AboveHeadIsLate(s: System, h: Hashes, q: Request, c: nat)
    requires Inv(s, h) && s.disk.head < c && q.key !in s.disk.commands
    requires !q.BadIdentity() && q.payloadBytes <= 65_536 && h.indexes(q.key) != {}
    ensures !NeverLate(s, h, c)
  {
    var next := s.disk.head + 1;
    var boot := UnusedBoot(s.disk);
    hide Inv, Enabled, Apply, Reopening, Reaches;
    DiskFacts(s, h);
    var todo := Reopen(s, h, boot);
    if todo != [] {
      RecoverCommits(s, h, boot, todo);
      Continue(s, h, Reopening(s, boot, todo), Inside(RecoverSave(0)));
      LateRun(s, h, Apply(Reopening(s, boot, todo), h, Inside(RecoverSave(0))), next, c);
    } else {
      ConstructAfterRestart(s, h, boot);
      AdmittedCommits(s, h, boot, q, c);
    }
  }

  lemma AdmittedCommits(s: System, h: Hashes, boot: nat, q: Request, c: nat)
    requires Inv(s, h) && Reaches(s, h, s.(proc := Some(Fresh(s, boot)))) && s.disk.head < c && s.disk.head + 1 !in s.disk.events
    requires !q.BadIdentity() && q.payloadBytes <= 65_536 && h.indexes(q.key) != {}
    ensures !NeverLate(s, h, c)
  {
    hide Inv, Reaches, Enabled, Apply, Reserve;
    var p := Fresh(s, boot);
    var t := s.(proc := Some(p));
    AdmitFires(t, p, h, q);
    var t1, p1 := s.(proc := Some(AfterAdmission(p, h, q))), AfterAdmission(p, h, q);
    Continue(s, h, t, Inside(Admit(q, Absent, q.key, 0)));
    ReservedDirty(p.mem, h, q, boot);
    var t2 := DirtyReaches(s, h, t1, p1, q.key);
    LateRun(s, h, t2, s.disk.head + 1, c);
  }

  lemma ReservedDirty(m: Memory, h: Hashes, q: Request, boot: nat)
    ensures var m' := Reserve(m, h, q, boot, 0); q.key in m'.dirty && m'.dirty[q.key].revision == m.revision + 1
  {
  }

  // ------------------------------------------------------------ settled cursors stay settled

  /** Above `c`, or stored at the start. */
  ghost predicate Past(stored: map<nat, Snapshot>, c: nat, v: Snapshot) {
    c < v.revision || v.revision in stored
  }

  ghost predicate PastAll(stored: map<nat, Snapshot>, c: nat, dirty: map<Key, Snapshot>, batch: seq<Snapshot>) {
    && (forall k :: k in dirty ==> Past(stored, c, dirty[k]))
    && (forall v :: v in batch ==> Past(stored, c, v))
  }

  /** What is stored at or below `c` was stored at the start. */
  ghost predicate StoredOnly(stored: map<nat, Snapshot>, d: Disk, c: nat) {
    forall r :: r in d.events && r <= c ==> r in stored
  }

  /** Everything that is stored, or may still be, at or below `c` was stored at the start. */
  ghost predicate Settled(s: System, c: nat, stored: map<nat, Snapshot>) {
    && c <= s.disk.head
    && StoredOnly(stored, s.disk, c)
    && (s.proc.Some? && s.proc.value.connected ==>
          PastAll(stored, c, s.proc.value.mem.dirty, Batch(s.proc.value.writer)))
  }

  lemma MarkedPast(stored: map<nat, Snapshot>, c: nat, m: Memory, error: string)
    requires DirtyInv(m) && PastAll(stored, c, m.dirty, [])
    ensures PastAll(stored, c, MarkFailed(m, error).dirty, [])
  {
    MarkExact(m, error);
  }

  /** A save stores nothing at or below `c` that was not stored at the start. */
  lemma SaveSettled(stored: map<nat, Snapshot>, d: Disk, c: nat, v: Snapshot)
    requires Past(stored, c, v) && StoredOnly(stored, d, c)
    ensures StoredOnly(stored, Save(d, v), c) && d.head <= Save(d, v).head
  {
  }

  lemma UpdatePast(stored: map<nat, Snapshot>, c: nat, m: Memory, port: string, ack: nat, change: Snapshot -> Snapshot, now: nat, batch: seq<Snapshot>)
    requires PastAll(stored, c, m.dirty, batch) && c <= m.revision
    ensures PastAll(stored, c, Update(m, port, ack, change, now).dirty, batch)
  {
    hide Past;
    if (port, ack) in m.ack && m.ack[(port, ack)] in m.entries {
      var k := m.ack[(port, ack)];
      var v := TrimAttempts(change(m.entries[k]).(revision := m.revision + 1, updated := now));
      assert Past(stored, c, v) by { AboveIsPast(stored, c, v); }
    }
  }

  lemma AboveIsPast(stored: map<nat, Snapshot>, c: nat, v: Snapshot)
    requires c < v.revision
    ensures Past(stored, c, v)
  {
  }

  lemma BeginPast(stored: map<nat, Snapshot>, c: nat, m: Memory, h: Hashes, inv: Inventory, q: Request, lookup: Lookup, victim: Key, boot: nat, now: nat, batch: seq<Snapshot>)
    requires PastAll(stored, c, m.dirty, batch) && c <= m.revision
    ensures PastAll(stored, c, Begin(m, h, inv, q, lookup, victim, boot, now).0.dirty, batch)
  {
    hide Past, Begin;
    BeginCases(m, h, inv, q, lookup, victim, boot, now);
    AboveIsPast(stored, c, NewSnapshot(m, q, boot, now));
    AboveIsPast(stored, c, NewSnapshot(Degrade(m, Effective(m, q.key, lookup)), q, boot, now));
    AboveIsPast(stored, c, NewSnapshot(Evict(Degrade(m, Effective(m, q.key, lookup)), victim), q, boot, now));
  }

  lemma ConnectedFacts(s: System, p: Process, h: Hashes)
    requires Inv(s, h) && s.proc == Some(p)
    ensures DirtyInv(p.mem) && (p.connected ==> s.disk.head <= p.mem.revision && !p.writer.Opening?)
    ensures p.writer.Flushing? || p.writer.Committed? ==> p.connected
  {
    hide DiskInv, ReaderInv, AgreeInv, AdmissionInv, PendingInv, BatchInv, SavedInv, OpeningInv;
  }

  lemma SaveActsSettled(s: System, p: Process, h: Hashes, action: Action, c: nat, stored: map<nat, Snapshot>)
    requires Inv(s, h) && s.proc == Some(p) && Can(s, p, h, action) && Settled(s, c, stored) && (action.Commit? || action.CommitUnreported?)
    ensures Settled(Act(s, p, h, action), c, stored)
  {
    hide Inv, PastAll, MarkFailed, Recorded, StoredOnly, Save;
    ConnectedFacts(s, p, h);
    BatchPast(stored, c, p.mem.dirty, p.writer.batch);
    SaveSettled(stored, s.disk, c, p.writer.batch[0]);
    if action.CommitUnreported? {
      DirtyPast(stored, c, p.mem.dirty, p.writer.batch[1..]);
      MarkedPast(stored, c, p.mem, action.error);
    }
  }

  lemma BatchPast(stored: map<nat, Snapshot>, c: nat, dirty: map<Key, Snapshot>, batch: seq<Snapshot>)
    requires PastAll(stored, c, dirty, batch) && batch != []
    ensures Past(stored, c, batch[0]) && PastAll(stored, c, dirty, batch[1..])
  {
    assert batch[0] in batch;
    assert forall v :: v in batch[1..] ==> v in batch;
  }

  lemma DirtyPast(stored: map<nat, Snapshot>, c: nat, dirty: map<Key, Snapshot>, batch: seq<Snapshot>)
    requires PastAll(stored, c, dirty, batch)
    ensures PastAll(stored, c, dirty, [])
  {
  }

  lemma {:induction false} OpeningActsSettled(s: System, p: Process, h: Hashes, action: Action, c: nat, stored: map<nat, Snapshot>)
    requires Inv(s, h) && s.proc == Some(p) && Can(s, p, h, action) && Settled(s, c, stored) && (action.RecoverSave? || action.OpenDone?)
    ensures Settled(Act(s, p, h, action), c, stored)
  {
    hide Inv;
    ConnectedFacts(s, p, h);
    if action.RecoverSave? {
      RecoverSaveKeeps(s, p, h, action.now);
      OpeningAtHead(s, p, h);
      hide DiskInv;
    } else {
      OpenDoneKeeps(s, p, h, action.keys);
      hide Rebase, DoOpened;
    }
  }

  lemma {:induction false} MemoryActsSettled(s: System, p: Process, h: Hashes, action: Action, c: nat, stored: map<nat, Snapshot>)
    requires Inv(s, h) && s.proc == Some(p) && Can(s, p, h, action) && Settled(s, c, stored) && (action.Admit? || action.Report?)
    ensures Settled(Act(s, p, h, action), c, stored)
  {
    hide Inv, PastAll, Begin, Update;
    ConnectedFacts(s, p, h);
    if p.connected {
      match action
      case Admit(q, lookup, victim, now) =>
        BeginPast(stored, c, p.mem, h, p.inventory, q, lookup, victim, p.boot, now, Batch(p.writer));
      case Report(port, ack, change, now) =>
        UpdatePast(stored, c, p.mem, port, ack, change, now, Batch(p.writer));
    }
  }

  lemma {:induction false} WriterActsSettled(s: System, p: Process, h: Hashes, action: Action, c: nat, stored: map<nat, Snapshot>)
    requires Inv(s, h) && s.proc == Some(p) && Can(s, p, h, action) && Settled(s, c, stored)
    requires action.CloneBatch? || action.AckCommit? || action.FlushDone?
    ensures Settled(Act(s, p, h, action), c, stored)
  {
    hide Inv, MarkFailed, Past;
    ConnectedFacts(s, p, h);
  }

  lemma {:induction false} SaveFailSettled(s: System, p: Process, h: Hashes, error: string, c: nat, stored: map<nat, Snapshot>)
    requires Inv(s, h) && s.proc == Some(p) && Can(s, p, h, SaveFail(error)) && Settled(s, c, stored)
    ensures Settled(Act(s, p, h, SaveFail(error)), c, stored)
  {
    hide Inv, MarkFailed, Past;
    ConnectedFacts(s, p, h);
    DirtyPast(stored, c, p.mem.dirty, Batch(p.writer));
    MarkedPast(stored, c, p.mem, error);
  }

  lemma {:induction false} IdleActsSettled(s: System, p: Process, h: Hashes, action: Action, c: nat, stored: map<nat, Snapshot>)
    requires s.proc == Some(p) && Can(s, p, h, action) && Settled(s, c, stored)
    requires action.OpenStart? || action.OpenFail? || action.Construct? || action.SetError? || action.WriteGap? || action.ReadGap?
             || action.Retention? || action.Page?
    ensures Settled(Act(s, p, h, action), c, stored)
  {
    hide PastAll, PageItems, Expires;
  }

  lemma {:induction false} StepSettled(s: System, h: Hashes, step: Step, c: nat, stored: map<nat, Snapshot>)
    requires Inv(s, h) && Enabled(s, h, step) && Settled(s, c, stored)
    ensures Settled(Apply(s, h, step), c, stored)
  {
    hide Inv, Can, Act;
    if step.Inside? {
      var p, action := s.proc.value, step.action;
      hide Settled;
      if action.Commit? || action.CommitUnreported? {
        SaveActsSettled(s, p, h, action, c, stored);
      } else if action.RecoverSave? || action.OpenDone? {
        OpeningActsSettled(s, p, h, action, c, stored);
      } else if action.Admit? || action.Report? {
        MemoryActsSettled(s, p, h, action, c, stored);
      } else if action.SaveFail? {
        SaveFailSettled(s, p, h, action.error, c, stored);
      } else if action.CloneBatch? || action.AckCommit? || action.FlushDone? {
        WriterActsSettled(s, p, h, action, c, stored);
      } else {
        IdleActsSettled(s, p, h, action, c, stored);
      }
    }
  }

  lemma {:induction false} RunSettled(run: seq<System>, h: Hashes, n: nat, c: nat, stored: map<nat, Snapshot>)
    requires IsRun(run, h) && Inv(run[0], h) && Settled(run[0], c, stored) && n < |run|
    ensures Settled(run[n], c, stored)
    decreases n
  {
    hide Inv, Enabled, Apply, Settled;
    if n > 0 {
      RunSettled(run, h, n - 1, c, stored);
      RunKeepsInv(run, h);
      assert Next(run[n - 1], h, run[n - 1 + 1]);
      var step :| Enabled(run[n - 1], h, step) && run[n] == Apply(run[n - 1], h, step);
      StepSettled(run[n - 1], h, step, c, stored);
    }
  }

  /** THEOREM (exact): between two writer rounds, a cursor value is safe for ever if and only if it lies at
      or below the durable head and below every dirty revision that is not stored. */
  lemma {:induction false} CursorSafeExactly(s: System, p: Process, h: Hashes, c: nat, q: Request)
    requires Inv(s, h) && s.proc == Some(p) && p.ready && p.connected && p.writer.Idle?
    requires !q.BadIdentity() && q.payloadBytes <= 65_536 && h.indexes(q.key) != {} && q.key !in s.disk.commands
    ensures NeverLate(s, h, c) <==> c <= s.disk.head && forall k :: k in p.mem.dirty ==> Past(s.disk.events, c, p.mem.dirty[k])
  {
    hide Inv, Next;
    if c > s.disk.head {
      AboveHeadIsLate(s, h, q, c);
    } else if k :| k in p.mem.dirty && !Past(s.disk.events, c, p.mem.dirty[k]) {
      DirtyIsLate(s, p, h, k, c);
    } else {
      forall run | IsRun(run, h) && run[0] == s
        ensures NothingLate(s, run[|run| - 1], c)
      {
        RunSettled(run, h, |run| - 1, c, s.disk.events);
      }
    }
  }

  /** A page's ceiling never exceeds that bound; while every save reports truly it meets it exactly. A page
      that returned rows yields a cursor below its ceiling; a page asked from an arbitrary position that
      returned none echoes that position, which is safe exactly under this test. */
  lemma {:induction false} CeilingIsExact(s: System, p: Process, h: Hashes, ceiling: nat, c: nat)
    requires Inv(s, h) && s.proc == Some(p) && p.connected && p.writer.Idle? && IsCeiling(p.mem, ceiling)
    ensures c <= s.disk.head && c <= ceiling ==> forall k :: k in p.mem.dirty ==> Past(s.disk.events, c, p.mem.dirty[k])
    ensures !p.unreported && c <= s.disk.head && (forall k :: k in p.mem.dirty ==> Past(s.disk.events, c, p.mem.dirty[k])) ==> c <= ceiling
  {
    DirtyNew(s, p, h);
    if c <= ceiling {
      assert Beyond(c, p.mem.dirty, []) by { CeilingBelowDirty(p.mem, p.owner, ceiling, c); }
    }
    hide Inv;
    ConnectedFacts(s, p, h);
  }

  /** While every save reports truly, dirty evidence is not stored. */
  lemma DirtyNew(s: System, p: Process, h: Hashes)
    requires Inv(s, h) && s.proc == Some(p) && p.connected && p.writer.Idle?
    ensures !p.unreported ==> forall k :: k in p.mem.dirty ==> p.mem.dirty[k].revision !in s.disk.events
  {
    hide ReaderInv, AdmissionInv, AgreeInv, HistoryInv, CommandsInv, OwnedInv, BatchInv;
  }
}
