/** The journal as a state machine: admission, serial workers, the writer thread,
    crashes and restarts interleave one critical section at a time. */
module JournalProtocol {
  import opened Basics
  import opened JournalModel

  /** Where the writer thread stands between two critical sections. */
  datatype Writer =
    | Idle
    | Opening(todo: seq<Snapshot>, head: nat)     // inside open_database
    | Flushing(batch: seq<Snapshot>)              // cloned, not yet saved
    | Committed(saved: Snapshot, rest: seq<Snapshot>)  // on disk, not yet acknowledged in memory

  datatype Process = Process(
    boot: nat,
    ready: bool,                // the tracker is constructed; callers may use it
    connected: bool,               // the writer holds a database connection
    writer: Writer,
    mem: Memory,
    inventory: Inventory,
    admitted: seq<Key>,         // history: identities reported as newly reserved
    owner: map<nat, Key>,       // history: the key each revision was issued to
    lost: bool,                 // history: some dirty snapshot was evicted
    unreported: bool)           // history: some save committed but was reported as failed

  /** A reader that follows next_cursor from zero for one manager. */
  datatype Reader = Reader(manager: string, cursor: nat, listed: seq<Snapshot>)

  datatype System = System(
    disk: Disk,
    history: map<nat, Snapshot>,  // every event row ever inserted
    pruned: set<Snapshot>,        // every command row retention removed
    proc: Option<Process>,
    reader: Reader)

  datatype Step =
    | Crash
    | Boot(boot: nat)
    | Inside(action: Action)

  datatype Action =
    | OpenStart(todo: seq<Snapshot>, head: nat)
    | RecoverSave(now: nat)
    | OpenFail(error: string)
    | OpenDone(keys: seq<Key>)
    | Construct(inventory: Inventory)
    | Admit(request: Request, lookup: Lookup, victim: Key, now: nat)
    | Report(port: string, ack: nat, change: Snapshot -> Snapshot, now: nat)
    | SetError(error: string)
    | CloneBatch(batch: seq<Snapshot>)
    | WriteGap
    | ReadGap
    | Commit
    | AckCommit
    | SaveFail(error: string)
    | CommitUnreported(error: string)
    | FlushDone
    | Retention(cutoff: nat, keep: nat)
    | Page(ceiling: nat, limit: nat)

  function Batch(w: Writer): seq<Snapshot> {
    match w
    case Flushing(b) => b
    case Committed(_, rest) => rest
    case _ => []
  }

  ghost predicate DistinctKeys(s: seq<Snapshot>) {
    forall i, j :: 0 <= i < j < |s| ==> s[i].key != s[j].key
  }

  /** The listing `SELECT data FROM commands WHERE finished=0` minus this boot's rows. */
  ghost predicate IsUnfinished(d: Disk, boot: nat, todo: seq<Snapshot>) {
    && DistinctKeys(todo)
    && forall v :: v in todo <==>
         v.key in d.commands && d.commands[v.key] == v && !v.Terminal() && v.boot != boot
  }

  ghost predicate IsKeyListing(m: map<Key, Snapshot>, keys: seq<Key>) {
    && (forall i, j :: 0 <= i < j < |keys| ==> keys[i] != keys[j])
    && forall k :: k in keys <==> k in m
  }

  ghost predicate HasKey(batch: seq<Snapshot>, k: Key) {
    exists i :: 0 <= i < |batch| && batch[i].key == k
  }

  /** A batch is the first dirty snapshots in key order, as many as the limit allows. */
  ghost predicate IsBatch(m: Memory, batch: seq<Snapshot>) {
    && |batch| == (if |m.dirty| < BATCH_LIMIT then |m.dirty| else BATCH_LIMIT)
    && DistinctKeys(batch)
    && (forall v :: v in batch ==> v.key in m.dirty && m.dirty[v.key] == v)
    && (forall i, j :: 0 <= i < j < |batch| ==> KeyBefore(batch[i].key, batch[j].key))
    && (forall k, v :: k in m.dirty && !HasKey(batch, k) && v in batch ==> KeyBefore(v.key, k))
  }

  /** The startup inventory: refused when it is too large, else every stored identity. */
  ghost predicate IsInventory(d: Disk, h: Hashes, inv: Inventory) {
    if inv.known then
      |inv.digests| <= KEEP_COUNT + CACHE_LIMIT && inv.digests == set k | k in d.commands :: h.digest(k)
    else inv.digests == {}
  }

  ghost predicate Enabled(s: System, h: Hashes, step: Step) {
    match step
    case Crash => s.proc.Some?
    case Boot(_) => s.proc.None?
    case Inside(action) => s.proc.Some? && Can(s, s.proc.value, h, action)
  }

  ghost predicate Can(s: System, p: Process, h: Hashes, action: Action) {
    match action
    case OpenStart(todo, head) =>
      !p.connected && p.writer.Idle? && IsHead(s.disk, head) && IsUnfinished(s.disk, p.boot, todo)
    case RecoverSave(_) => p.writer.Opening? && p.writer.todo != []
    case OpenFail(_) => !p.connected && (p.writer.Idle? || p.writer.Opening?)
    case OpenDone(keys) =>
      p.writer.Opening? && p.writer.todo == [] && IsKeyListing(p.mem.dirty, keys)
    case Construct(inv) => !p.ready && p.writer.Idle? && IsInventory(s.disk, h, inv)
    case Admit(q, _, victim, _) =>
      p.ready && (HasTerminal(p.mem.entries) ==> IsVictim(p.mem.entries, victim))
    case Report(port, ack, change, _) =>
      p.ready && forall v :: change(v).key == v.key && change(v).boot == v.boot && change(v).hash == v.hash
    case SetError(_) => p.ready
    case CloneBatch(batch) => p.ready && p.connected && p.writer.Idle? && IsBatch(p.mem, batch)
    case WriteGap => p.connected && p.mem.gap
    case ReadGap => p.connected && s.disk.historyGap
    case Commit => p.writer.Flushing? && p.writer.batch != []
    case AckCommit => p.writer.Committed?
    case SaveFail(_) => p.writer.Flushing? && p.writer.batch != []
    case CommitUnreported(_) => p.writer.Flushing? && p.writer.batch != []
    case FlushDone => p.writer.Flushing? && p.writer.batch == []
    case Retention(_, _) => p.connected && p.writer.Idle?
    case Page(ceiling, _) => p.connected && p.writer.Idle? && IsCeiling(p.mem, ceiling)
  }

  /** The history after a save: an ignored insert adds nothing. */
  function Recorded(d: Disk, history: map<nat, Snapshot>, v: Snapshot): map<nat, Snapshot> {
    if v.revision in d.events then history else history[v.revision := v]
  }

  function Insert(s: System, v: Snapshot): System {
    s.(disk := Save(s.disk, v), history := Recorded(s.disk, s.history, v))
  }

  function Apply(s: System, h: Hashes, step: Step): System
    requires Enabled(s, h, step)
  {
    match step
    case Crash => s.(proc := None)
    case Boot(boot) =>
      s.(proc := Some(Process(boot, false, false, Idle, EMPTY_MEMORY, Inventory(false, {}), [], map[], false, false)))
    case Inside(action) => Act(s, s.proc.value, h, action)
  }

  function DoRecover(s: System, p: Process, now: nat): System
    requires p.writer.Opening? && p.writer.todo != []
  {
    var head := p.writer.head + 1;
    Insert(s, Recovered(p.writer.todo[0], head, now)).(proc := Some(p.(writer := Opening(p.writer.todo[1..], head))))
  }

  function DoAdmit(s: System, p: Process, h: Hashes, q: Request, lookup: Lookup, victim: Key, now: nat): System {
    var (mem, outcome) := Begin(p.mem, h, p.inventory, q, lookup, victim, p.boot, now);
    s.(proc := Some(p.(
         mem := mem,
         admitted := if outcome == Reserved then p.admitted + [q.key] else p.admitted,
         owner := if outcome == Reserved then p.owner[p.mem.revision + 1 := q.key] else p.owner,
         lost := p.lost || (outcome == Reserved && |p.mem.entries| >= CACHE_LIMIT && victim in p.mem.dirty))))
  }

  function DoCommit(s: System, p: Process): System
    requires p.writer.Flushing? && p.writer.batch != []
  {
    Insert(s, p.writer.batch[0]).(proc := Some(p.(writer := Committed(p.writer.batch[0], p.writer.batch[1..]))))
  }

  /** The transaction commits, but the call reports an error. */
  function DoUnreported(s: System, p: Process, error: string): System
    requires p.writer.Flushing? && p.writer.batch != []
  {
    Insert(s, p.writer.batch[0]).(proc := Some(p.(mem := MarkFailed(p.mem, error), writer := Idle, unreported := true)))
  }

  function DoRetention(s: System, cutoff: nat, keep: nat): System {
    var disk := Prune(s.disk, cutoff, keep);
    s.(disk := disk,
       pruned := s.pruned + set k | k in s.disk.commands && k !in disk.commands :: s.disk.commands[k])
  }

  function DoPage(s: System, ceiling: nat, limit: nat): System {
    var items := PageItems(s.disk, s.reader.manager, s.reader.cursor, ceiling, limit);
    s.(reader := s.reader.(cursor := Cursor(items, s.reader.cursor), listed := s.reader.listed + items))
  }

  function DoReport(s: System, p: Process, port: string, ack: nat, change: Snapshot -> Snapshot, now: nat): System {
    var owner := if (port, ack) in p.mem.ack then p.owner[p.mem.revision + 1 := p.mem.ack[(port, ack)]] else p.owner;
    s.(proc := Some(p.(mem := Update(p.mem, port, ack, change, now), owner := owner)))
  }

  function Highest(a: nat, b: nat): nat {
    if a < b then b else a
  }

  function Range(base: nat, count: nat): (rs: set<nat>)
    ensures forall r :: r in rs <==> base < r <= base + count
  {
    if count == 0 then {} else Range(base, count - 1) + {base + count}
  }

  /** Consecutive revisions above `base`, one for each key. */
  function Issued(owner: map<nat, Key>, base: nat, keys: seq<Key>): map<nat, Key> {
    owner + map r | r in Range(base, |keys|) :: keys[r - base - 1]
  }

  function DoOpened(s: System, p: Process, keys: seq<Key>): System
    requires p.writer.Opening?
  {
    var owner := Issued(p.owner, Highest(p.mem.revision, p.writer.head), keys);
    s.(proc := Some(p.(connected := true, writer := Idle, mem := Rebase(p.mem, p.writer.head, keys), owner := owner)))
  }

  /** A new memory and a new writer position; everything else stays. */
  function Put(s: System, p: Process, mem: Memory, writer: Writer): System {
    s.(proc := Some(p.(mem := mem, writer := writer)))
  }

  function Act(s: System, p: Process, h: Hashes, action: Action): System
    requires Can(s, p, h, action)
  {
    match action
    case OpenStart(todo, head) => Put(s, p, p.mem, Opening(todo, head))
    case RecoverSave(now) => DoRecover(s, p, now)
    case OpenFail(error) => Put(s, p, p.mem.(error := error), Idle)
    case OpenDone(keys) => DoOpened(s, p, keys)
    case Construct(inv) => s.(proc := Some(p.(ready := true, inventory := inv)))
    case Admit(q, lookup, victim, now) => DoAdmit(s, p, h, q, lookup, victim, now)
    case Report(port, ack, change, now) => DoReport(s, p, port, ack, change, now)
    case SetError(error) => Put(s, p, p.mem.(error := error), p.writer)
    case CloneBatch(batch) => Put(s, p, p.mem, Flushing(batch))
    case WriteGap => s.(disk := s.disk.(historyGap := true))
    case ReadGap => Put(s, p, p.mem.(gap := true), p.writer)
    case Commit => DoCommit(s, p)
    case AckCommit => Put(s, p, AckSaved(p.mem, p.writer.saved), Flushing(p.writer.rest))
    case SaveFail(error) => Put(s, p, MarkFailed(p.mem, error), Idle)
    case CommitUnreported(error) => DoUnreported(s, p, error)
    case FlushDone => Put(s, p, p.mem, Idle)
    case Retention(cutoff, keep) => DoRetention(s, cutoff, keep)
    case Page(ceiling, limit) => DoPage(s, ceiling, limit)
  }

  function PageItems(d: Disk, manager: string, after: nat, ceiling: nat, limit: nat): seq<Snapshot> {
    Fitting(Rows(d.events, manager, after, ceiling, limit), 0, true)
  }

  // ------------------------------------------------------------- invariants

  ghost predicate HistoryInv(history: map<nat, Snapshot>, head: nat) {
    forall r :: r in history ==> 0 < r <= head && history[r].revision == r
  }

  /** Event rows are part of the history. */
  ghost predicate EventsInv(events: map<nat, Snapshot>, history: map<nat, Snapshot>) {
    forall r :: r in events ==> r in history && history[r] == events[r]
  }

  /** A command row is the newest event ever committed for its key. */
  ghost predicate CommandsInv(commands: map<Key, Snapshot>, events: map<nat, Snapshot>, history: map<nat, Snapshot>) {
    forall k :: k in commands ==>
      && commands[k].key == k
      && commands[k].revision in events && events[commands[k].revision] == commands[k]
      && Newest(history, commands[k])
  }

  ghost predicate Newest(history: map<nat, Snapshot>, v: Snapshot) {
    forall r :: r in history && history[r].key == v.key ==> r <= v.revision
  }

  /** Retention never leaves an event without its command row. */
  ghost predicate OwnedInv(events: map<nat, Snapshot>, commands: map<Key, Snapshot>) {
    forall r :: r in events ==> events[r].key in commands
  }

  ghost predicate DiskInv(d: Disk, history: map<nat, Snapshot>) {
    && HistoryInv(history, d.head)
    && EventsInv(d.events, history)
    && CommandsInv(d.commands, d.events, history)
    && OwnedInv(d.events, d.commands)
  }

  /** Each dirty key is a cached entry with the identical snapshot. */
  ghost predicate DirtyInv(m: Memory) {
    forall k :: k in m.dirty ==> k in m.entries && m.dirty[k] == m.entries[k]
  }

  /** Cached revisions were issued, each to its own key. */
  ghost predicate CacheInv(m: Memory, owner: map<nat, Key>) {
    && (forall r :: r in owner ==> 0 < r <= m.revision)
    && (forall k :: k in m.entries ==>
          m.entries[k].key == k && m.entries[k].revision in owner && owner[m.entries[k].revision] == k)
  }

  ghost predicate AllDirty(m: Memory) {
    forall k :: k in m.entries ==> k in m.dirty
  }

  ghost predicate AckInv(m: Memory) {
    forall a :: a in m.ack ==> m.ack[a] in m.entries
  }

  ghost predicate MemoryInv(m: Memory, owner: map<nat, Key>) {
    DirtyInv(m) && CacheInv(m, owner) && AckInv(m) && |m.entries| <= CACHE_LIMIT
  }

  /** Admission: no identity twice, each tombstoned, none from the inventory. */
  ghost predicate AdmissionInv(admitted: seq<Key>, seen: set<nat>, digests: set<nat>, h: Hashes) {
    && (forall i, j :: 0 <= i < j < |admitted| ==> admitted[i] != admitted[j])
    && (forall k :: k in admitted ==> h.indexes(k) <= seen && h.digest(k) !in digests)
  }

  ghost predicate ProcessInv(p: Process, h: Hashes) {
    && MemoryInv(p.mem, p.owner)
    && AdmissionInv(p.admitted, p.mem.seen, p.inventory.digests, h)
    && (p.lost ==> p.mem.gap)
    && (!p.ready ==> p.mem.entries == map[] && p.mem.dirty == map[] && p.admitted == [])
    && (!p.connected ==> AllDirty(p.mem))
  }

  /** Not committed yet, and newer than all committed evidence of its key. */
  ghost predicate Ahead(history: map<nat, Snapshot>, v: Snapshot) {
    && v.revision !in history
    && forall r :: r in history && history[r].key == v.key ==> r < v.revision
  }

  /** Committed before without its mark, by a save that was reported as failed, and still the newest
      evidence of its key. */
  ghost predicate Twin(loose: bool, history: map<nat, Snapshot>, v: Snapshot) {
    && loose && v.revision in history && Same(loose, history[v.revision], v)
    && Newest(history, v)
  }

  /** Evidence the writer may still save. */
  ghost predicate Savable(loose: bool, history: map<nat, Snapshot>, v: Snapshot) {
    Ahead(history, v) || Twin(loose, history, v)
  }

  ghost predicate PendingInv(loose: bool, history: map<nat, Snapshot>, dirty: map<Key, Snapshot>, w: Writer) {
    forall k :: k in dirty ==> Savable(loose, history, dirty[k]) || (w.Committed? && w.saved == dirty[k])
  }

  /** A snapshot the writer took out of memory is still there, or has been superseded or evicted. */
  ghost predicate InFlight(m: Memory, owner: map<nat, Key>, v: Snapshot) {
    && v.revision in owner && owner[v.revision] == v.key
    && (v.key in m.entries ==>
          && v.key in m.dirty
          && v.revision <= m.dirty[v.key].revision
          && (v.revision == m.dirty[v.key].revision ==> v == m.dirty[v.key]))
  }

  ghost predicate BatchInv(loose: bool, history: map<nat, Snapshot>, m: Memory, owner: map<nat, Key>, batch: seq<Snapshot>) {
    && (forall v :: v in batch ==> Savable(loose, history, v) && InFlight(m, owner, v))
    && DistinctKeys(batch)
  }

  ghost predicate SavedInv(loose: bool, commands: map<Key, Snapshot>, m: Memory, owner: map<nat, Key>, v: Snapshot, rest: seq<Snapshot>) {
    && InFlight(m, owner, v)
    && v.key in commands && Same(loose, commands[v.key], v)
    && (forall x :: x in rest ==> x.key != v.key)
  }

  ghost predicate OpeningInv(commands: map<Key, Snapshot>, head: nat, w: Writer)
    requires w.Opening?
  {
    && w.head == head
    && DistinctKeys(w.todo)
    && forall v :: v in w.todo ==> v.key in commands && commands[v.key] == v
  }

  ghost predicate WriterInv(d: Disk, history: map<nat, Snapshot>, p: Process) {
    if p.connected then
      && !p.writer.Opening?
      && d.head <= p.mem.revision
      && PendingInv(p.unreported, history, p.mem.dirty, p.writer)
      && BatchInv(p.unreported, history, p.mem, p.owner, Batch(p.writer))
      && (p.writer.Committed? ==> SavedInv(p.unreported, d.commands, p.mem, p.owner, p.writer.saved, p.writer.rest))
    else !p.unreported && (p.writer.Idle? || (p.writer.Opening? && OpeningInv(d.commands, d.head, p.writer)))
  }

  ghost predicate WasPruned(loose: bool, pruned: set<Snapshot>, v: Snapshot) {
    exists u :: u in pruned && Same(loose, u, v)
  }

  /** A clean entry is on disk at its revision, unless retention removed that very row. */
  ghost predicate AgreeInv(loose: bool, m: Memory, commands: map<Key, Snapshot>, pruned: set<Snapshot>) {
    forall k :: k in m.entries && k !in m.dirty ==>
      || (k in commands && Same(loose, commands[k], m.entries[k]))
      || (WasPruned(loose, pruned, m.entries[k]) && m.entries[k].Terminal())
  }

  /** Nothing at or below `c` is waiting in memory or in the writer's hands. */
  ghost predicate Beyond(c: nat, dirty: map<Key, Snapshot>, batch: seq<Snapshot>) {
    && (forall k :: k in dirty ==> c < dirty[k].revision)
    && (forall v :: v in batch ==> c < v.revision)
  }

  /** No event at or below `c` can still be committed. */
  ghost predicate SafeCursor(s: System, c: nat) {
    && c <= s.disk.head
    && (s.proc.Some? && s.proc.value.connected ==>
          Beyond(c, s.proc.value.mem.dirty, Batch(s.proc.value.writer)))
  }

  /** What following the cursor has listed so far. */
  ghost predicate ReaderInv(q: Reader, events: map<nat, Snapshot>, history: map<nat, Snapshot>) {
    && Ascending(q.listed)
    && (forall v :: v in q.listed ==>
          v.key.manager == q.manager && v.revision <= q.cursor && v.revision in history && history[v.revision] == v)
    && (forall r :: r in events && r <= q.cursor && events[r].key.manager == q.manager ==> events[r] in q.listed)
  }

  ghost predicate Ascending(s: seq<Snapshot>) {
    forall i, j :: 0 <= i < j < |s| ==> s[i].revision < s[j].revision
  }

  ghost predicate Inv(s: System, h: Hashes) {
    && DiskInv(s.disk, s.history)
    && ReaderInv(s.reader, s.disk.events, s.history)
    && SafeCursor(s, s.reader.cursor)
    && (s.proc.Some? ==>
          && ProcessInv(s.proc.value, h)
          && WriterInv(s.disk, s.history, s.proc.value)
          && AgreeInv(s.proc.value.unreported, s.proc.value.mem, s.disk.commands, s.pruned))
  }

  /** A gateway before its first start. */
  ghost predicate Init(s: System) {
    s.disk == Disk(map[], map[], 0, false) && s.history == map[] && s.pruned == {} && s.proc.None?
    && s.reader.cursor == 0 && s.reader.listed == []
  }

  ghost predicate Next(s: System, h: Hashes, s': System) {
    exists step :: Enabled(s, h, step) && s' == Apply(s, h, step)
  }

  ghost predicate IsRun(run: seq<System>, h: Hashes) {
    run != [] && forall i :: 0 <= i < |run| - 1 ==> Next(run[i], h, run[i + 1])
  }
}
