/** What the journal promises over every run, with crashes, failed saves, retention and late opening. */
module JournalTheorems {
  import opened Basics
  import opened JournalModel
  import opened JournalProtocol
  import opened JournalProofs

  lemma {:induction false} InitInv(s: System, h: Hashes)
    requires Init(s)
    ensures Inv(s, h)
  {
  }

  lemma {:induction false} RunKeepsInv(run: seq<System>, h: Hashes)
    requires IsRun(run, h) && Inv(run[0], h)
    ensures forall i :: 0 <= i < |run| ==> Inv(run[i], h)
  {
    hide Inv, Enabled, Apply;
    var n := 1;
    while n < |run|
      invariant 1 <= n <= |run|
      invariant forall i :: 0 <= i < n ==> Inv(run[i], h)
    {
      assert Next(run[n - 1], h, run[n]);
      var step :| Enabled(run[n - 1], h, step) && run[n] == Apply(run[n - 1], h, step);
      StepKeeps(run[n - 1], h, step);
      n := n + 1;
    }
  }

  // ------------------------------------------------------- commits never collide

  /** The journal only grows: no revision changes meaning but for the mark, the head never falls. */
  ghost predicate Extends(s: System, s': System) {
    && s.disk.head <= s'.disk.head
    && (forall r :: r in s.history ==> r in s'.history && Same(true, s'.history[r], s.history[r]))
  }

  /** Every event stored at or below `c` afterwards was stored before. */
  ghost predicate NothingLate(s: System, s': System, c: nat) {
    forall r :: r in s'.disk.events && r <= c ==> r in s.disk.events
  }

  /** Every event stored at or below `c` afterwards was stored before, with the same snapshot. */
  ghost predicate Frozen(s: System, s': System, c: nat) {
    forall r :: r in s'.disk.events && r <= c ==> r in s.disk.events && s'.disk.events[r] == s.disk.events[r]
  }

  lemma InsertExtends(s: System, v: Snapshot, c: nat)
    requires c < v.revision && (v.revision in s.history ==> Same(true, s.history[v.revision], v))
    ensures Extends(s, Insert(s, v)) && Frozen(s, Insert(s, v), c)
  {
  }

  /** A save of the writer, reported or not. */
  lemma CommitExtends(s: System, p: Process, h: Hashes, c: nat)
    requires Inv(s, h) && s.proc == Some(p) && p.writer.Flushing? && p.writer.batch != [] && SafeCursor(s, c)
    ensures Extends(s, Insert(s, p.writer.batch[0])) && Frozen(s, Insert(s, p.writer.batch[0]), c)
    ensures !p.unreported ==> p.writer.batch[0].revision !in s.history
  {
    hide Inv;
    var v := p.writer.batch[0];
    FirstOfBatch(s, p, h);
    assert v in Batch(p.writer);
    InsertExtends(s, v, c);
  }

  lemma OpeningAtHead(s: System, p: Process, h: Hashes)
    requires Inv(s, h) && s.proc == Some(p) && p.writer.Opening?
    ensures DiskInv(s.disk, s.history) && p.writer.head == s.disk.head
  {
    hide DiskInv, ReaderInv, ProcessInv, AgreeInv;
  }

  lemma RecoverExtends(s: System, p: Process, now: nat, c: nat)
    requires DiskInv(s.disk, s.history) && p.writer.Opening? && p.writer.todo != [] && p.writer.head == s.disk.head && c <= s.disk.head
    ensures Extends(s, DoRecover(s, p, now)) && Frozen(s, DoRecover(s, p, now), c) && s.disk.head + 1 !in s.history
  {
    hide DiskInv, Insert, Same;
    var v := Recovered(p.writer.todo[0], p.writer.head + 1, now);
    RecoverFresh(s.disk, s.history, v);
    InsertExtends(s, v, c);
  }

  lemma RecoverStep(s: System, p: Process, h: Hashes, now: nat, c: nat)
    requires Inv(s, h) && s.proc == Some(p) && Can(s, p, h, RecoverSave(now)) && SafeCursor(s, c)
    ensures Extends(s, Act(s, p, h, RecoverSave(now))) && Frozen(s, Act(s, p, h, RecoverSave(now)), c)
    ensures s.disk.head + 1 !in s.history && p.writer.head == s.disk.head
  {
    hide Inv, DoRecover, Extends, Frozen, Beyond;
    OpeningAtHead(s, p, h);
    RecoverExtends(s, p, now, c);
  }

  /** Every other action leaves the history and the head alone, and stores no event. */
  lemma OthersKeepHistory(s: System, p: Process, h: Hashes, action: Action)
    requires s.proc == Some(p) && Can(s, p, h, action) && !action.Commit? && !action.CommitUnreported? && !action.RecoverSave?
    ensures var t := Act(s, p, h, action);
      && t.history == s.history && t.disk.head == s.disk.head
      && forall r :: r in t.disk.events ==> r in s.disk.events && t.disk.events[r] == s.disk.events[r]
  {
    hide Begin, Update, Rebase, MarkFailed, AckSaved, PageItems, Expires;
  }

  /** The two forms of a save differ in the process only. */
  lemma CommitInserts(s: System, p: Process, h: Hashes, action: Action)
    requires s.proc == Some(p) && Can(s, p, h, action) && (action.Commit? || action.CommitUnreported?)
    ensures p.writer.Flushing? && p.writer.batch != []
    ensures var t, u := Act(s, p, h, action), Insert(s, p.writer.batch[0]); t.history == u.history && t.disk == u.disk
  {
    hide Insert, MarkFailed;
  }

  lemma ActExtends(s: System, p: Process, h: Hashes, action: Action, c: nat)
    requires Inv(s, h) && s.proc == Some(p) && Can(s, p, h, action) && SafeCursor(s, c)
    ensures Extends(s, Act(s, p, h, action)) && Frozen(s, Act(s, p, h, action), c)
  {
    hide Inv, Act, Can, SafeCursor, Insert;
    if action.Commit? || action.CommitUnreported? {
      CommitInserts(s, p, h, action);
      CommitExtends(s, p, h, c);
    } else if action.RecoverSave? {
      RecoverStep(s, p, h, action.now, c);
    } else {
      OthersKeepHistory(s, p, h, action);
    }
  }

  /** While every save reports truly, nothing stored changes at all. */
  lemma ActExact(s: System, p: Process, h: Hashes, action: Action, r: nat)
    requires Inv(s, h) && s.proc == Some(p) && Can(s, p, h, action) && !p.unreported && r in s.history
    ensures var t := Act(s, p, h, action); r in t.history && t.history[r] == s.history[r]
  {
    assert SafeCursor(s, 0) by { hide Inv; ZeroSafe(s, h); }
    hide Inv, Can, SafeCursor;
    if action.Commit? || action.CommitUnreported? {
      CommitInserts(s, p, h, action);
      CommitExtends(s, p, h, 0);
      hide Act;
    } else if action.RecoverSave? {
      RecoverStep(s, p, h, action.now, 0);
    } else {
      OthersKeepHistory(s, p, h, action);
      hide Act;
    }
  }

  // ------------------------------------------------------ safe cursors stay safe

  /** Readers do not influence the journal. */
  lemma ActIgnoresReader(s: System, p: Process, h: Hashes, action: Action, q: Reader)
    requires Can(s, p, h, action) && !action.Page?
    ensures Can(s.(reader := q), p, h, action)
    ensures Act(s.(reader := q), p, h, action) == Act(s, p, h, action).(reader := q)
  {
  }

  function Lengths(managers: seq<string>): (n: nat)
    ensures forall m :: m in managers ==> |m| < n
  {
    if managers == [] then 0
    else
      var n := Lengths(managers[1..]);
      if |managers[0]| < n then n else |managers[0]| + 1
  }

  lemma {:induction false} ListSet<T>(xs: set<T>) returns (list: seq<T>)
    ensures forall x :: x in list <==> x in xs
    ensures forall i, j :: 0 <= i < j < |list| ==> list[i] != list[j]
  {
    if xs == {} {
      list := [];
    } else {
      var x :| x in xs;
      var rest := ListSet(xs - {x});
      list := [x] + rest;
    }
  }

  /** A manager name no stored event uses. */
  lemma UnusedManager(events: map<nat, Snapshot>) returns (manager: string)
    ensures forall r :: r in events ==> events[r].key.manager != manager
  {
    var list := ListSet(set r | r in events :: events[r].key.manager);
    manager := seq(Lengths(list), _ => 'x');
    assert |manager| == Lengths(list);
  }

  lemma ActKeepsSafe(s: System, p: Process, h: Hashes, action: Action, c: nat)
    requires Inv(s, h) && s.proc == Some(p) && Can(s, p, h, action) && SafeCursor(s, c)
    ensures SafeCursor(Act(s, p, h, action), c)
  {
    hide Inv, Can, Act;
    if action.Page? {
      PageKeepsSafe(s, p, h, action, c);
    } else {
      var s1 := AnotherReader(s, h, c);
      ActIgnoresReader(s, p, h, action, s1.reader);
      ActKeeps(s1, p, h, action);
      assert SafeCursor(Act(s1, p, h, action), c) by { ReaderSafe(Act(s1, p, h, action), h); }
    }
  }

  lemma PageKeepsSafe(s: System, p: Process, h: Hashes, action: Action, c: nat)
    requires s.proc == Some(p) && action.Page? && Can(s, p, h, action) && SafeCursor(s, c)
    ensures SafeCursor(Act(s, p, h, action), c)
  {
  }

  lemma ReaderSafe(s: System, h: Hashes)
    requires Inv(s, h)
    ensures SafeCursor(s, s.reader.cursor)
  {
    hide DiskInv, ReaderInv, ProcessInv, WriterInv, AgreeInv;
  }

  /** A reader that has listed nothing may stand at any safe cursor. */
  lemma AnotherReader(s: System, h: Hashes, c: nat) returns (s1: System)
    requires Inv(s, h) && SafeCursor(s, c)
    ensures Inv(s1, h) && s1 == s.(reader := s1.reader) && s1.reader.cursor == c
  {
    hide DiskInv, ProcessInv, WriterInv, AgreeInv;
    var manager := UnusedManager(s.disk.events);
    s1 := s.(reader := Reader(manager, c, []));
  }

  lemma {:induction false} StepLate(s: System, h: Hashes, step: Step, c: nat)
    requires Inv(s, h) && Enabled(s, h, step)
    ensures Extends(s, Apply(s, h, step))
    ensures SafeCursor(s, c) ==> Frozen(s, Apply(s, h, step), c) && SafeCursor(Apply(s, h, step), c)
  {
    hide Inv, Can, Act;
    if step.Inside? {
      assert SafeCursor(s, 0) by { ZeroSafe(s, h); }
      ActExtends(s, s.proc.value, h, step.action, 0);
      if SafeCursor(s, c) {
        ActExtends(s, s.proc.value, h, step.action, c);
        ActKeepsSafe(s, s.proc.value, h, step.action, c);
      }
    }
  }

  lemma ZeroSafe(s: System, h: Hashes)
    requires Inv(s, h)
    ensures SafeCursor(s, 0)
  {
  }

  /** Along a run the history only grows, and no event is stored or changed at or below a safe cursor. */
  lemma {:induction false} RunLate(run: seq<System>, h: Hashes, i: nat, j: nat, c: nat)
    requires IsRun(run, h) && Inv(run[0], h) && i <= j < |run|
    ensures Extends(run[i], run[j])
    ensures SafeCursor(run[i], c) ==> Frozen(run[i], run[j], c) && SafeCursor(run[j], c)
    decreases j - i
  {
    hide Inv, Enabled, Apply, SafeCursor;
    if i < j {
      RunLate(run, h, i, j - 1, c);
      RunKeepsInv(run, h);
      assert Next(run[j - 1], h, run[j]);
      var step :| Enabled(run[j - 1], h, step) && run[j] == Apply(run[j - 1], h, step);
      StepLate(run[j - 1], h, step, c);
    }
  }

  /** Every save up to then reported truly. */
  ghost predicate ReportsTruly(run: seq<System>, i: nat, j: nat) {
    forall n :: i <= n < j && n < |run| && run[n].proc.Some? ==> !run[n].proc.value.unreported
  }

  lemma {:induction false} RunExact(run: seq<System>, h: Hashes, i: nat, j: nat, r: nat)
    requires IsRun(run, h) && Inv(run[0], h) && i <= j < |run| && r in run[i].history && ReportsTruly(run, i, j)
    ensures r in run[j].history && run[j].history[r] == run[i].history[r]
    decreases j - i
  {
    hide Inv, Can, Act;
    if i < j {
      RunExact(run, h, i, j - 1, r);
      RunKeepsInv(run, h);
      assert Next(run[j - 1], h, run[j]);
      var step :| Enabled(run[j - 1], h, step) && run[j] == Apply(run[j - 1], h, step);
      if step.Inside? { ActExact(run[j - 1], run[j - 1].proc.value, h, step.action, r); }
    }
  }

  // ------------------------------------------------------------------ theorems

  /** THEOREM (late evidence): after a page returned `next_cursor`, no event at or below it is stored or
      changed in any continuation, with any crashes and restarts: an event row that is present later was
      present, with the same snapshot, when the page was read. */
  lemma {:induction false} NoLateEvidence(run: seq<System>, h: Hashes, i: nat, j: nat)
    requires IsRun(run, h) && Init(run[0]) && i <= j < |run|
    ensures forall r :: r in run[j].disk.events && r <= run[i].reader.cursor ==>
              r in run[i].disk.events && run[i].disk.events[r] == run[j].disk.events[r]
  {
    InitInv(run[0], h);
    RunKeepsInv(run, h);
    assert Inv(run[i], h) && Inv(run[j], h);
    RunLate(run, h, i, j, run[i].reader.cursor);
  }

  /** THEOREM (cursor paging): in every reachable state, following the cursor has listed every
      stored event of the manager up to the cursor exactly once, in revision order, and nothing
      that was not committed. */
  lemma ChainListsExactlyOnce(run: seq<System>, h: Hashes, i: nat)
    requires IsRun(run, h) && Init(run[0]) && i < |run|
    ensures var s := run[i];
      && Ascending(s.reader.listed)
      && (forall r :: r in s.disk.events && r <= s.reader.cursor && s.disk.events[r].key.manager == s.reader.manager
            ==> exists a :: 0 <= a < |s.reader.listed| && s.reader.listed[a] == s.disk.events[r]
                            && forall b :: 0 <= b < |s.reader.listed| && b != a ==> s.reader.listed[b].revision != r)
      && (forall v :: v in s.reader.listed ==> v.revision in s.history && s.history[v.revision] == v)
  {
    InitInv(run[0], h);
    RunKeepsInv(run, h);
    var s := run[i];
    assert Inv(s, h);
    forall r | r in s.disk.events && r <= s.reader.cursor && s.disk.events[r].key.manager == s.reader.manager
      ensures exists a :: 0 <= a < |s.reader.listed| && s.reader.listed[a] == s.disk.events[r]
                          && forall b :: 0 <= b < |s.reader.listed| && b != a ==> s.reader.listed[b].revision != r
    {
      assert s.disk.events[r] in s.reader.listed;
      var a :| 0 <= a < |s.reader.listed| && s.reader.listed[a] == s.disk.events[r];
      assert s.reader.listed[a].revision == r;
    }
  }

  /** THEOREM (at most once): in every reachable state of a process no identity was reserved twice,
      and none whose digest the startup inventory held, whatever the cold lookups answered. */
  lemma AdmittedAtMostOnce(run: seq<System>, h: Hashes, i: nat)
    requires IsRun(run, h) && Init(run[0]) && i < |run| && run[i].proc.Some?
    ensures var p := run[i].proc.value;
      && (forall a, b :: 0 <= a < b < |p.admitted| ==> p.admitted[a] != p.admitted[b])
      && (forall k :: k in p.admitted ==> h.digest(k) !in p.inventory.digests)
  {
    InitInv(run[0], h);
    RunKeepsInv(run, h);
    assert Inv(run[i], h);
  }

  /** The process built its tracker in step `c` and has been running since. */
  ghost predicate BuiltAt(run: seq<System>, h: Hashes, c: nat, i: nat, inv: Inventory) {
    && c < i < |run| && run[c].proc.Some? && Can(run[c], run[c].proc.value, h, Construct(inv))
    && run[c + 1] == Act(run[c], run[c].proc.value, h, Construct(inv))
    && forall j :: c < j <= i ==> run[j].proc.Some?
  }

  lemma ReadyKeepsInventory(s: System, p: Process, h: Hashes, action: Action)
    requires s.proc == Some(p) && p.ready && Can(s, p, h, action)
    ensures var t := Act(s, p, h, action); t.proc.Some? && t.proc.value.ready && t.proc.value.inventory == p.inventory
  {
    hide Begin, Update, Rebase, MarkFailed, AckSaved, Save, Prune, PageItems;
  }

  lemma NextKeepsInventory(s: System, h: Hashes, t: System)
    requires Next(s, h, t) && s.proc.Some? && s.proc.value.ready && t.proc.Some?
    ensures t.proc.value.ready && t.proc.value.inventory == s.proc.value.inventory
  {
    hide Can, Act;
    var step :| Enabled(s, h, step) && t == Apply(s, h, step);
    assert step.Inside?;
    ReadyKeepsInventory(s, s.proc.value, h, step.action);
  }

  lemma {:induction false} InventoryStays(run: seq<System>, h: Hashes, c: nat, i: nat, inv: Inventory)
    requires IsRun(run, h) && BuiltAt(run, h, c, i, inv)
    ensures run[i].proc.value.ready && run[i].proc.value.inventory == inv
    decreases i - c
  {
    hide Can, Next, Act;
    if i > c + 1 {
      InventoryStays(run, h, c, i - 1, inv);
      assert Next(run[i - 1], h, run[i - 1 + 1]);
      NextKeepsInventory(run[i - 1], h, run[i]);
    } else {
      Constructed(run[c], h, inv);
    }
  }

  lemma Constructed(s: System, h: Hashes, inv: Inventory)
    requires s.proc.Some? && Can(s, s.proc.value, h, Construct(inv))
    ensures var t := Act(s, s.proc.value, h, Construct(inv));
            t.proc.Some? && t.proc.value.ready && t.proc.value.inventory == inv
  {
  }

  /** THEOREM (restart): a process that could read its startup inventory never reserves an identity that
      was stored when it started. */
  lemma {:induction false} StoredNeverAdmitted(run: seq<System>, h: Hashes, c: nat, i: nat, inv: Inventory, k: Key)
    requires IsRun(run, h) && Init(run[0]) && BuiltAt(run, h, c, i, inv) && inv.known && k in run[c].disk.commands
    ensures k !in run[i].proc.value.admitted
  {
    InventoryStays(run, h, c, i, inv);
    AdmittedAtMostOnce(run, h, i);
    assert h.digest(k) in inv.digests;
    hide IsRun, Can, Act;
  }

  /** A capacity rejection remembers nothing of the request: as soon as a report makes any cached command
      terminal, the same request is reserved, whatever the lookups answer that lets it through. */
  lemma {:induction false} CapacityRejectionKeepsAdmissible(
      m: Memory, h: Hashes, inv: Inventory, q: Request, first: Lookup, victim: Key, boot: nat, now: nat,
      port: string, ack: nat, change: Snapshot -> Snapshot, reported: nat, again: Lookup, oldest: Key, later: nat)
    requires Begin(m, h, inv, q, first, victim, boot, now).1 == CacheFull
    requires again.Absent? || (again.Unavailable? && inv.known)
    ensures var rejected := Begin(m, h, inv, q, first, victim, boot, now).0;
            var m' := Update(rejected, port, ack, change, reported);
      && rejected == Degrade(m, first)
      && (HasTerminal(m'.entries) ==> Begin(m', h, inv, q, again, oldest, boot, later).1 == Reserved)
  {
    var rejected := Begin(m, h, inv, q, first, victim, boot, now).0;
    UpdateKeepsIdentities(rejected, port, ack, change, reported);
    hide Update, HasTerminal;
  }

  lemma {:induction false} UpdateKeepsIdentities(m: Memory, port: string, ack: nat, change: Snapshot -> Snapshot, now: nat)
    ensures var m' := Update(m, port, ack, change, now);
            m'.entries.Keys == m.entries.Keys && |m'.entries| == |m.entries| && m'.seen == m.seen
  {
    var m' := Update(m, port, ack, change, now);
    assert m'.entries.Keys == m.entries.Keys;
    assert |m'.entries.Keys| == |m'.entries| && |m.entries.Keys| == |m.entries|;
  }

  /** A save that committed but was reported as failed does lose its mark: the retry carries the same
      revision and both tables keep the unmarked snapshot. */
  lemma UnreportedCommitLosesMark(d: Disk, v: Snapshot)
    requires v.revision !in d.events && (v.key in d.commands ==> d.commands[v.key].revision < v.revision)
    requires !v.auditIncomplete
    ensures var committed := Save(d, v); var retried := Save(committed, Marked(v));
      && retried == committed
      && v.revision in retried.events && retried.events[v.revision] == v && retried.events[v.revision] != Marked(v)
      && v.key in retried.commands && retried.commands[v.key] == v && retried.commands[v.key] != Marked(v)
  {
  }

  /** THEOREM (revisions): along every run the head never falls and bounds every committed revision, and
      whatever is stored under a revision, pruned or not, is one snapshot: exactly one while saves
      report truly, and one up to the mark of incomplete evidence when some did not. */
  lemma RevisionsNeverReused(run: seq<System>, h: Hashes, i: nat, j: nat)
    requires IsRun(run, h) && Init(run[0]) && i <= j < |run|
    ensures run[i].disk.head <= run[j].disk.head
    ensures forall r :: r in run[i].history ==> r in run[j].history && Same(true, run[j].history[r], run[i].history[r])
    ensures ReportsTruly(run, i, j) ==> forall r :: r in run[i].history ==> run[j].history[r] == run[i].history[r]
    ensures forall r :: r in run[j].disk.events ==> r in run[j].history && run[j].disk.events[r] == run[j].history[r]
    ensures forall r :: r in run[j].history ==> r <= run[j].disk.head
  {
    InitInv(run[0], h);
    RunKeepsInv(run, h);
    assert Inv(run[i], h) && Inv(run[j], h);
    RunLate(run, h, i, j, 0);
    if ReportsTruly(run, i, j) {
      forall r | r in run[i].history ensures r in run[j].history && run[j].history[r] == run[i].history[r] {
        RunExact(run, h, i, j, r);
      }
    }
  }

  /** INSERT OR IGNORE never drops evidence: what the writer saves is new in both tables, or an earlier
      save of it committed without being reported and only the mark is at stake. */
  lemma SaveNeverIgnored(run: seq<System>, h: Hashes, i: nat)
    requires IsRun(run, h) && Init(run[0]) && i < |run| && run[i].proc.Some?
    requires run[i].proc.value.writer.Flushing? && run[i].proc.value.writer.batch != []
    ensures var v := run[i].proc.value.writer.batch[0]; var d := Save(run[i].disk, v);
      if v.revision !in run[i].history
      then d.events == run[i].disk.events[v.revision := v] && d.commands == run[i].disk.commands[v.key := v]
      else run[i].proc.value.unreported && Same(true, run[i].history[v.revision], v)
           && v.key in d.commands && Same(true, d.commands[v.key], v)
  {
    InitInv(run[0], h);
    RunKeepsInv(run, h);
    var s, p := run[i], run[i].proc.value;
    assert Inv(s, h);
    FirstOfBatch(s, p, h);
    hide ReaderInv, ProcessInv, WriterInv, AgreeInv;
    if Ahead(s.history, p.writer.batch[0]) {
      InsertAhead(s.disk, s.history, p.writer.batch[0]);
    } else {
      InsertTwin(true, s.disk, s.history, p.writer.batch[0]);
    }
  }

  /** Dirty snapshots are the cached ones; a clean entry is the stored one at its revision unless retention
      removed it; a clean entry without a stored command is terminal; losing a dirty entry set the gap
      flag; the cache is bounded. */
  ghost predicate Agrees(s: System) {
    s.proc.Some? ==>
      var m, loose := s.proc.value.mem, s.proc.value.unreported;
      && (forall k :: k in m.dirty ==> k in m.entries && m.dirty[k] == m.entries[k])
      && (forall k :: k in m.entries && k !in m.dirty && !WasPruned(loose, s.pruned, m.entries[k]) ==>
            && k in s.disk.commands && Same(loose, s.disk.commands[k], m.entries[k])
            && m.entries[k].revision in s.disk.events && s.disk.events[m.entries[k].revision] == s.disk.commands[k])
      && (forall k :: k in m.entries && k !in m.dirty && k !in s.disk.commands ==> m.entries[k].Terminal())
      && (s.proc.value.lost ==> m.gap)
      && |m.entries| <= CACHE_LIMIT
  }

  lemma {:induction false} InvAgrees(s: System, h: Hashes)
    requires Inv(s, h)
    ensures Agrees(s)
  {
    hide ReaderInv, AdmissionInv, PendingInv, BatchInv, SavedInv, HistoryInv, EventsInv, OwnedInv, CacheInv, AckInv;
  }

  /** THEOREM (memory and journal agree), in every reachable state of a process; after an unreported commit
      a clean entry may carry a mark the journal lacks, and nothing else. */
  lemma {:induction false} MemoryAgreesWithJournal(run: seq<System>, h: Hashes, i: nat)
    requires IsRun(run, h) && Init(run[0]) && i < |run| && run[i].proc.Some?
    ensures Agrees(run[i])
  {
    hide Inv, Init;
    InitInv(run[0], h);
    RunKeepsInv(run, h);
    InvAgrees(run[i], h);
  }
}
