/** The command journal: bounded memory, one writer thread and a durable table.

    Memory, disk and writer are values here; every critical section of the
    program is one function from the state before to the state after. */
module JournalModel {
  import opened Basics

  const CACHE_LIMIT: nat := 10_000
  const KEEP_COUNT: nat := 100_000
  const BATCH_LIMIT: nat := 256
  const ATTEMPT_LIMIT: nat := 256
  const PAGE_BYTES: nat := 1024 * 1024

  /** Manager and command contain no NUL, so the joined key text is a pair. */
  datatype Key = Key(manager: string, command: string)

  /** The order of the joined key texts; NUL sorts before every character of a part. */
  predicate KeyBefore(a: Key, b: Key) {
    Before(a.manager, b.manager) || (a.manager == b.manager && Before(a.command, b.command))
  }

  datatype Phase =
    | Accepted
    | Active(name: string)
    | AckReceived
    | Failed
    | Expired
    | Unknown
    | SentUnconfirmed

  datatype Snapshot = Snapshot(
    key: Key,
    boot: nat,
    port: string,
    ack: nat,
    hash: nat,
    phase: Phase,
    attempts: seq<string>,
    revision: nat,
    updated: nat,
    auditIncomplete: bool,
    size: nat)  // bytes of the stored JSON text
  {
    predicate Terminal() {
      phase.AckReceived? || phase.Failed? || phase.Expired? || phase.Unknown? || phase.SentUnconfirmed?
    }
  }

  /** SHA-256 enters only through these two functions, about which nothing is assumed. */
  datatype Hashes = Hashes(indexes: Key -> set<nat>, digest: Key -> nat)

  // ---------------------------------------------------------------- memory

  datatype Memory = Memory(
    entries: map<Key, Snapshot>,
    ack: map<(string, nat), Key>,
    dirty: map<Key, Snapshot>,
    revision: nat,
    persisted: map<Key, nat>,
    error: string,
    gap: bool,
    seen: set<nat>)

  const EMPTY_MEMORY := Memory(map[], map[], map[], 0, map[], "", false, {})

  datatype Request = Request(key: Key, port: string, ack: nat, hash: nat, payloadBytes: nat, size: nat)
  {
    static predicate BadText(v: string) {
      v == "" || |v| > 256 || '\0' in v
    }

    predicate BadIdentity() {
      BadText(key.manager) || BadText(key.command) || BadText(port)
    }
  }

  /** What the cold point lookup answered; it is asked only on a memory miss. */
  datatype Lookup = Found(hash: nat) | Absent | Unavailable(error: string)

  datatype Inventory = Inventory(known: bool, digests: set<nat>)

  datatype BeginOutcome =
    | InvalidIdentity
    | PayloadTooLarge
    | ContentConflict
    | AlreadyKnown
    | HistoryUnavailable
    | Historical
    | Tombstoned
    | CacheFull
    | Reserved

  /** The entry admission evicts: a terminal one with the least revision. */
  predicate IsVictim(entries: map<Key, Snapshot>, k: Key) {
    && k in entries
    && entries[k].Terminal()
    && forall j :: j in entries && entries[j].Terminal() ==> entries[k].revision <= entries[j].revision
  }

  predicate HasTerminal(entries: map<Key, Snapshot>) {
    exists k :: k in entries && entries[k].Terminal()
  }

  function Evict(m: Memory, victim: Key): Memory {
    m.(entries := m.entries - {victim},
       dirty := m.dirty - {victim},
       gap := m.gap || victim in m.dirty,
       persisted := m.persisted - {victim},
       ack := map a | a in m.ack && m.ack[a] != victim :: m.ack[a])
  }

  function NewSnapshot(m: Memory, q: Request, boot: nat, now: nat): Snapshot {
    Snapshot(q.key, boot, q.port, q.ack, q.hash, Accepted, [], m.revision + 1, now, m.error != "", q.size)
  }

  function Reserve(m: Memory, h: Hashes, q: Request, boot: nat, now: nat): Memory {
    var v := NewSnapshot(m, q, boot, now);
    m.(seen := m.seen + h.indexes(q.key),
       revision := m.revision + 1,
       ack := m.ack[(q.port, q.ack) := q.key],
       entries := m.entries[q.key := v],
       dirty := m.dirty[q.key := v])
  }

  /** What `get` answers before the admission decision. */
  function Effective(m: Memory, k: Key, lookup: Lookup): Lookup {
    if k in m.entries then Found(m.entries[k].hash) else lookup
  }

  function Degrade(m: Memory, lookup: Lookup): Memory {
    if lookup.Unavailable? then m.(error := lookup.error) else m
  }

  /** The whole admission decision; `victim` is consulted only by a full cache. */
  function Begin(m: Memory, h: Hashes, inv: Inventory, q: Request, lookup: Lookup,
                 victim: Key, boot: nat, now: nat): (Memory, BeginOutcome)
  {
    if q.BadIdentity() then (m, InvalidIdentity)
    else if q.payloadBytes > 65_536 then (m, PayloadTooLarge)
    else
      var answer := Effective(m, q.key, lookup);
      if answer.Found? then (m, if answer.hash != q.hash then ContentConflict else AlreadyKnown)
      else
        var m1 := Degrade(m, answer);
        if answer.Unavailable? && !inv.known then (m1, HistoryUnavailable)
        else if h.digest(q.key) in inv.digests then (m1, Historical)
        else if h.indexes(q.key) <= m1.seen then (m1, Tombstoned)
        else if |m1.entries| < CACHE_LIMIT then (Reserve(m1, h, q, boot, now), Reserved)
        else if HasTerminal(m1.entries) then (Reserve(Evict(m1, victim), h, q, boot, now), Reserved)
        else (m1, CacheFull)
  }

  function TrimAttempts(v: Snapshot): Snapshot {
    if |v.attempts| > ATTEMPT_LIMIT
    then v.(attempts := v.attempts[|v.attempts| - ATTEMPT_LIMIT..], auditIncomplete := true)
    else v
  }

  /** A serial worker's progress report for the command behind (port, ack). */
  function Update(m: Memory, port: string, ack: nat, change: Snapshot -> Snapshot, now: nat): Memory {
    if (port, ack) !in m.ack then m
    else
      var k := m.ack[(port, ack)];
      if k !in m.entries then m.(revision := m.revision + 1)
      else
        var v := TrimAttempts(change(m.entries[k]).(revision := m.revision + 1, updated := now));
        m.(revision := m.revision + 1, entries := m.entries[k := v], dirty := m.dirty[k := v])
  }

  function AckSaved(m: Memory, v: Snapshot): Memory {
    var dirty := if v.key in m.dirty && m.dirty[v.key].revision == v.revision
                 then m.dirty - {v.key} else m.dirty;
    m.(persisted := m.persisted[v.key := v.revision],
       dirty := dirty,
       error := if dirty == map[] then "" else m.error)
  }

  function Marked(v: Snapshot): Snapshot {
    v.(auditIncomplete := true)
  }

  /** Equal, or equal but for the mark of incomplete evidence where that is allowed. */
  predicate Same(loose: bool, a: Snapshot, b: Snapshot) {
    a == b || (loose && Marked(a) == Marked(b))
  }

  function MarkFailed(m: Memory, error: string): Memory {
    var entries := map k | k in m.entries :: if k in m.dirty then Marked(m.entries[k]) else m.entries[k];
    m.(error := error,
       entries := entries,
       dirty := map k | k in m.dirty :: if k in m.entries then Marked(m.entries[k]) else m.dirty[k])
  }

  /** One rebased key: a fresh revision, and the evidence marked incomplete. */
  function RebaseOne(m: Memory, k: Key): Memory {
    if k in m.entries then
      var v := m.entries[k].(revision := m.revision + 1, auditIncomplete := true);
      m.(revision := m.revision + 1, entries := m.entries[k := v], dirty := m.dirty[k := v])
    else m.(revision := m.revision + 1)
  }

  function RebaseKeys(m: Memory, keys: seq<Key>): Memory
    decreases |keys|
  {
    if keys == [] then m else RebaseOne(RebaseKeys(m, keys[..|keys| - 1]), keys[|keys| - 1])
  }

  /** A journal that opens late may have a higher head than memory. */
  function Rebase(m: Memory, head: nat, keys: seq<Key>): Memory {
    RebaseKeys(m.(revision := if m.revision < head then head else m.revision), keys)
  }

  // ------------------------------------------------------------------ disk

  datatype Disk = Disk(
    commands: map<Key, Snapshot>,
    events: map<nat, Snapshot>,
    head: nat,
    historyGap: bool)

  /** One save transaction: upsert of the newer row, INSERT OR IGNORE, MAX(head). */
  function Save(d: Disk, v: Snapshot): Disk {
    d.(commands := if v.key in d.commands && v.revision <= d.commands[v.key].revision
                   then d.commands else d.commands[v.key := v],
       events := if v.revision in d.events then d.events else d.events[v.revision := v],
       head := if d.head < v.revision then v.revision else d.head)
  }

  ghost predicate IsHead(d: Disk, r: nat) {
    && d.head <= r
    && (forall e :: e in d.events ==> e <= r)
    && (r == d.head || r in d.events)
  }

  function NewerFinished(d: Disk, k: Key): set<Key>
    requires k in d.commands
  {
    set j | j in d.commands && d.commands[j].Terminal() && d.commands[j].revision > d.commands[k].revision
  }

  predicate Expires(d: Disk, k: Key, cutoff: nat, keep: nat)
    requires k in d.commands
  {
    d.commands[k].Terminal() && (d.commands[k].updated < cutoff || |NewerFinished(d, k)| >= keep)
  }

  /** Retention; the head deliberately survives. */
  function Prune(d: Disk, cutoff: nat, keep: nat): Disk {
    var commands := map k | k in d.commands && !Expires(d, k, cutoff, keep) :: d.commands[k];
    d.(commands := commands,
       events := map r | r in d.events && d.events[r].key in commands :: d.events[r])
  }

  /** Rows another process left unfinished become Unknown under fresh revisions. */
  function Recovered(v: Snapshot, revision: nat, now: nat): Snapshot {
    v.(revision := revision, phase := Unknown, auditIncomplete := true, updated := now)
  }

  // ------------------------------------------------------------ event pages

  /** Rows of the page query: this manager, after < revision <= ceiling, ascending, LIMIT. */
  function Rows(events: map<nat, Snapshot>, manager: string, after: nat, ceiling: nat, limit: nat): seq<Snapshot>
    decreases ceiling - after
  {
    if after >= ceiling || limit == 0 then []
    else if after + 1 in events && events[after + 1].key.manager == manager
    then [events[after + 1]] + Rows(events, manager, after + 1, ceiling, limit - 1)
    else Rows(events, manager, after + 1, ceiling, limit)
  }

  /** The rows that fit one reply: the first always, later ones while bytes allow. */
  function Fitting(rows: seq<Snapshot>, bytes: nat, first: bool): seq<Snapshot>
  {
    if rows == [] || (!first && bytes + rows[0].size > PAGE_BYTES) then []
    else [rows[0]] + Fitting(rows[1..], bytes + rows[0].size, false)
  }

  function Cursor(items: seq<Snapshot>, after: nat): nat {
    if items == [] then after else items[|items| - 1].revision
  }

  /** Just below the oldest dirty evidence, or everything issued so far. */
  ghost predicate IsCeiling(m: Memory, c: nat) {
    if m.dirty == map[] then c == m.revision
    else
      && (forall k :: k in m.dirty ==> c <= Below(m.dirty[k].revision))
      && exists k :: k in m.dirty && c == Below(m.dirty[k].revision)
  }

  function Below(r: nat): nat {
    if r == 0 then 0 else r - 1
  }
}
