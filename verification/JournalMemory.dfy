/** The journal's in-memory state as the program updates it, proved against the memory functions. */
module JournalMemory {
  import opened JournalModel
  import JournalProtocol
  import opened JournalProofs
  import opened Basics

  /** An identity text that is empty, too long or holds the separator. */
  ghost predicate Malformed(q: Request) {
    exists part :: part in [q.key.manager, q.key.command, q.port] && (part == "" || |part| > 256 || '\0' in part)
  }

  /** The content hash recorded for an identity, in memory or else in the journal. */
  function KnownHash(m: Memory, k: Key, lookup: Lookup): Option<nat> {
    if k in m.entries then Some(m.entries[k].hash) else if lookup.Found? then Some(lookup.hash) else None
  }

  /** The entry a full cache gives up: the ended one of least revision. */
  ghost predicate OldestEnded(entries: map<Key, Snapshot>, victim: Key) {
    && victim in entries && Ended(entries[victim])
    && forall k :: k in entries && Ended(entries[k]) ==> entries[victim].revision <= entries[k].revision
  }

  /** How an admission is answered: the condition of every answer. */
  ghost predicate Answered(m: Memory, h: Hashes, inventory: Inventory, q: Request, lookup: Lookup, outcome: BeginOutcome) {
    var known, broken := KnownHash(m, q.key, lookup), lookup.Unavailable? && !inventory.known;
    var sound := !Malformed(q) && q.payloadBytes <= 65_536;
    var unseen := sound && known.None? && !broken && h.digest(q.key) !in inventory.digests && !(h.indexes(q.key) <= m.seen);
    var room := |m.entries| < 10_000 || exists k :: k in m.entries && Ended(m.entries[k]);
    && (outcome == InvalidIdentity <==> Malformed(q))
    && (outcome == PayloadTooLarge <==> !Malformed(q) && q.payloadBytes > 65_536)
    && (outcome == AlreadyKnown <==> sound && known == Some(q.hash))
    && (outcome == ContentConflict <==> sound && known.Some? && known.value != q.hash)
    && (outcome == HistoryUnavailable <==> sound && known.None? && broken)
    && (outcome == Historical <==> sound && known.None? && !broken && h.digest(q.key) in inventory.digests)
    && (outcome == Tombstoned <==>
          sound && known.None? && !broken && h.digest(q.key) !in inventory.digests && h.indexes(q.key) <= m.seen)
    && (outcome == CacheFull <==> unseen && !room)
    && (outcome == Reserved <==> unseen && room)
  }

  /** A reservation: one new dirty entry under the next number, its acknowledgement and its tombstone; a
      full cache gives up its oldest ended entry with everything that belongs to it, and a dirty one
      leaves the mark of a gap. */
  ghost predicate Entered(m: Memory, h: Hashes, q: Request, error: string, victim: Key, boot: nat, now: nat, m': Memory) {
    var v := Snapshot(q.key, boot, q.port, q.ack, q.hash, Accepted, [], m.revision + 1, now, error != "", q.size);
    var full := |m.entries| >= 10_000;
    && m'.revision == m.revision + 1 && m'.seen == m.seen + h.indexes(q.key) && m'.error == error
    && m'.entries == (if full then m.entries - {victim} else m.entries)[q.key := v]
    && m'.dirty == (if full then m.dirty - {victim} else m.dirty)[q.key := v]
    && m'.persisted == (if full then m.persisted - {victim} else m.persisted)
    && (m'.gap <==> m.gap || (full && victim in m.dirty))
    && (forall a :: a in m'.ack <==> a == (q.port, q.ack) || (a in m.ack && !(full && m.ack[a] == victim)))
    && (forall a :: a in m'.ack ==> m'.ack[a] == if a == (q.port, q.ack) then q.key else m.ack[a])
  }

  /** What an admission changes: nothing where the identity is known or the request unsound, at most the
      error text where it is refused otherwise, and one entry where it is reserved. */
  ghost predicate Changed(m: Memory, h: Hashes, q: Request, lookup: Lookup, victim: Key, boot: nat, now: nat,
                          outcome: BeginOutcome, m': Memory) {
    var error := if q.key !in m.entries && lookup.Unavailable? then lookup.error else m.error;
    if outcome.InvalidIdentity? || outcome.PayloadTooLarge? || outcome.AlreadyKnown? || outcome.ContentConflict? then m' == m
    else if outcome != Reserved then m' == m.(error := error)
    else Entered(m, h, q, error, victim, boot, now, m') && (|m.entries| >= 10_000 ==> OldestEnded(m.entries, victim))
  }

  lemma EndedIsTerminal(v: Snapshot)
    ensures v.Terminal() <==> Ended(v)
  {
  }

  lemma BadIsMalformed(q: Request)
    ensures q.BadIdentity() <==> Malformed(q)
  {
    var parts := [q.key.manager, q.key.command, q.port];
    assert parts[0] in parts && parts[1] in parts && parts[2] in parts;
  }

  /** THEOREM: each answer is given exactly on its own condition, and changes what it says. */
  lemma {:induction false} BeginAnswers(m: Memory, h: Hashes, inventory: Inventory, q: Request, lookup: Lookup, victim: Key, boot: nat, now: nat)
    requires HasTerminal(m.entries) ==> IsVictim(m.entries, victim)
    ensures var (m', outcome) := Begin(m, h, inventory, q, lookup, victim, boot, now);
            Answered(m, h, inventory, q, lookup, outcome) && Changed(m, h, q, lookup, victim, boot, now, outcome, m')
  {
    hide *;
    BeginAnswered(m, h, inventory, q, lookup, victim, boot, now);
    BeginChanged(m, h, inventory, q, lookup, victim, boot, now);
  }

  lemma {:induction false} BeginAnswered(m: Memory, h: Hashes, inventory: Inventory, q: Request, lookup: Lookup, victim: Key, boot: nat, now: nat)
    ensures Answered(m, h, inventory, q, lookup, Begin(m, h, inventory, q, lookup, victim, boot, now).1)
  {
    hide Malformed, Ended, HasTerminal, Request.BadIdentity, Reserve, Evict;
    BadIsMalformed(q);
    TerminalsEnded(m.entries, victim);
  }

  lemma {:induction false} BeginChanged(m: Memory, h: Hashes, inventory: Inventory, q: Request, lookup: Lookup, victim: Key, boot: nat, now: nat)
    requires HasTerminal(m.entries) ==> IsVictim(m.entries, victim)
    ensures var (m', outcome) := Begin(m, h, inventory, q, lookup, victim, boot, now);
            Changed(m, h, q, lookup, victim, boot, now, outcome, m')
  {
    hide Ended, HasTerminal, IsVictim, OldestEnded, Entered, Request.BadIdentity, Reserve, Evict;
    TerminalsEnded(m.entries, victim);
    ReserveEnters(m, h, q, m.error, victim, boot, now);
    if lookup.Unavailable? { ReserveEnters(m, h, q, lookup.error, victim, boot, now); }
  }

  lemma ReserveEnters(m: Memory, h: Hashes, q: Request, error: string, victim: Key, boot: nat, now: nat)
    ensures var m1 := m.(error := error);
            Entered(m, h, q, error, victim, boot, now, Reserve(if |m.entries| < CACHE_LIMIT then m1 else Evict(m1, victim), h, q, boot, now))
  {
  }

  /** The listed entries have the numbers after `base`, in order, and the mark; nothing else changed. */
  ghost predicate Renumbered(m: Memory, keys: seq<Key>, base: nat, m': Memory) {
    && m'.revision == base + |keys| && m'.entries.Keys == m.entries.Keys && m'.dirty.Keys == m.dirty.Keys
    && (forall i :: 0 <= i < |keys| ==>
          && keys[i] in m.entries && keys[i] in m'.entries && keys[i] in m'.dirty
          && m'.entries[keys[i]] == m.entries[keys[i]].(revision := base + i + 1, auditIncomplete := true)
          && m'.dirty[keys[i]] == m'.entries[keys[i]])
    && (forall k :: k in m.entries && k !in keys ==> k in m'.entries && m'.entries[k] == m.entries[k])
    && m' == m.(revision := m'.revision, entries := m'.entries, dirty := m'.dirty)
  }

  lemma RebaseRenumbers(m: Memory, head: nat, keys: seq<Key>)
    requires forall k :: k in keys <==> k in m.dirty
    requires forall i, j :: 0 <= i < j < |keys| ==> keys[i] != keys[j]
    ensures (forall k :: k in m.dirty ==> k in m.entries) ==>
              Renumbered(m, keys, if m.revision < head then head else m.revision, Rebase(m, head, keys))
  {
    hide RebaseKeys, Renumbered, Rebased;
    if forall k :: k in m.dirty ==> k in m.entries {
      var raised := m.(revision := if m.revision < head then head else m.revision);
      RebaseKeysExact(raised, keys);
      RebasedIsRenumbered(m, raised, keys, RebaseKeys(raised, keys));
    }
  }

  lemma RebasedIsRenumbered(m: Memory, raised: Memory, keys: seq<Key>, m': Memory)
    requires raised == m.(revision := raised.revision) && Rebased(raised, m', keys)
    ensures Renumbered(m, keys, raised.revision, m')
  {
    forall i | 0 <= i < |keys|
      ensures RebasedAt(raised, m', keys[i], raised.revision + i + 1)
    {
    }
  }

  /** A report as it is kept: the worker's change, numbered and dated, with the last 256 attempts; losing
      attempts is marked. */
  ghost predicate Reported(changed: Snapshot, revision: nat, now: nat, v: Snapshot) {
    && v.revision == revision && v.updated == now
    && |v.attempts| == (if |changed.attempts| > 256 then 256 else |changed.attempts|)
    && (forall i :: 0 <= i < |v.attempts| ==> v.attempts[i] == changed.attempts[|changed.attempts| - |v.attempts| + i])
    && (v.auditIncomplete <==> changed.auditIncomplete || |changed.attempts| > 256)
    && v == changed.(revision := v.revision, updated := v.updated, attempts := v.attempts, auditIncomplete := v.auditIncomplete)
  }

  /** What a report changes: the entry behind its acknowledgement, cached and dirty, under the next number;
      nothing for an unknown acknowledgement, the number alone for one whose entry is gone. */
  ghost predicate Progressed(m: Memory, port: string, ack: nat, change: Snapshot -> Snapshot, now: nat, m': Memory) {
    if (port, ack) !in m.ack then m' == m
    else
      var k := m.ack[(port, ack)];
      if k !in m.entries then m' == m.(revision := m.revision + 1)
      else
        && k in m'.entries && Reported(change(m.entries[k]), m.revision + 1, now, m'.entries[k])
        && m' == m.(revision := m.revision + 1, entries := m.entries[k := m'.entries[k]], dirty := m.dirty[k := m'.entries[k]])
  }

  lemma UpdateProgresses(m: Memory, port: string, ack: nat, change: Snapshot -> Snapshot, now: nat)
    ensures Progressed(m, port, ack, change, now, Update(m, port, ack, change, now))
  {
    hide Reported, TrimAttempts;
    if (port, ack) in m.ack && m.ack[(port, ack)] in m.entries {
      TrimReports(change(m.entries[m.ack[(port, ack)]]), m.revision + 1, now);
    }
  }

  lemma TrimReports(v: Snapshot, revision: nat, now: nat)
    ensures Reported(v, revision, now, TrimAttempts(v.(revision := revision, updated := now)))
  {
  }

  /** If any entry has ended, one of them is the oldest. */
  lemma SomeVictim(entries: map<Key, Snapshot>) returns (victim: Key)
    ensures HasTerminal(entries) ==> IsVictim(entries, victim)
  {
    var ended := set k | k in entries && entries[k].Terminal();
    victim := Key("", "");
    if HasTerminal(entries) {
      var k :| k in entries && entries[k].Terminal();
      assert k in ended;
      victim := Oldest(entries, ended);
    }
  }

  lemma {:induction false} Oldest(entries: map<Key, Snapshot>, keys: set<Key>) returns (k: Key)
    requires keys != {} && forall j :: j in keys ==> j in entries
    ensures k in keys && forall j :: j in keys ==> entries[k].revision <= entries[j].revision
    decreases |keys|
  {
    k :| k in keys;
    if keys != {k} {
      var m := Oldest(entries, keys - {k});
      if entries[m].revision < entries[k].revision { k := m; }
    }
  }

  lemma TerminalsEnded(entries: map<Key, Snapshot>, victim: Key)
    ensures HasTerminal(entries) <==> exists k :: k in entries && Ended(entries[k])
    ensures IsVictim(entries, victim) ==> OldestEnded(entries, victim)
  {
    forall v: Snapshot ensures v.Terminal() <==> Ended(v) { EndedIsTerminal(v); }
    hide Ended;
  }

  class State {
    var entries: map<Key, Snapshot>
    var ack: map<(string, nat), Key>
    var dirty: map<Key, Snapshot>
    var revision: nat
    var persisted: map<Key, nat>
    var error: string
    var gap: bool
    var seen: set<nat>

    ghost function Model(): Memory
      reads this
    {
      Memory(entries, ack, dirty, revision, persisted, error, gap, seen)
    }

    constructor ()
      ensures Model() == EMPTY_MEMORY
    {
      entries, ack, dirty, revision := map[], map[], map[], 0;
      persisted, error, gap, seen := map[], "", false, {};
    }

    /** The terminal entry with the least revision, if any. */
    method OldestTerminal() returns (found: bool, victim: Key)
      ensures found <==> HasTerminal(entries)
      ensures found ==> IsVictim(entries, victim)
      ensures found <==> exists k :: k in entries && Ended(entries[k])
      ensures found ==> OldestEnded(entries, victim)
    {
      found, victim := false, Key("", "");
      var rest := entries.Keys;
      while rest != {}
        invariant rest <= entries.Keys
        invariant found ==> victim in entries && entries[victim].Terminal()
        invariant forall k :: k in entries && k !in rest && entries[k].Terminal() ==>
                    found && entries[victim].revision <= entries[k].revision
        decreases |rest|
      {
        var k :| k in rest;
        if entries[k].Terminal() && (!found || entries[k].revision < entries[victim].revision) {
          found, victim := true, k;
        }
        rest := rest - {k};
      }
    }

    method EvictEntry(victim: Key)
      modifies this
      ensures Model() == Evict(old(Model()), victim)
      ensures entries == old(entries) - {victim} && dirty == old(dirty) - {victim} && persisted == old(persisted) - {victim}
      ensures gap <==> old(gap) || victim in old(dirty)
      ensures forall a :: a in ack <==> a in old(ack) && old(ack)[a] != victim
      ensures revision == old(revision) && error == old(error) && seen == old(seen)
    {
      if victim in dirty {
        dirty := dirty - {victim};
        gap := true;
      }
      entries := entries - {victim};
      persisted := persisted - {victim};
      ack := map a | a in ack && ack[a] != victim :: ack[a];
      assert victim !in old(dirty) ==> dirty - {victim} == dirty;
    }

    /** Admission gives each answer exactly on its condition and makes only the change that goes with it. */
    method Admit(h: Hashes, inventory: Inventory, q: Request, lookup: Lookup, boot: nat, now: nat)
      returns (outcome: BeginOutcome, ghost victim: Key)
      modifies this
      ensures (Model(), outcome) == Begin(old(Model()), h, inventory, q, lookup, victim, boot, now)
      ensures HasTerminal(old(entries)) ==> IsVictim(old(entries), victim)
      ensures Answered(old(Model()), h, inventory, q, lookup, outcome)
      ensures Changed(old(Model()), h, q, lookup, victim, boot, now, outcome, Model())
    {
      outcome, victim := Decide(h, inventory, q, lookup, boot, now);
      BeginAnswers(old(Model()), h, inventory, q, lookup, victim, boot, now);
      hide Begin, Answered, Changed;
    }

    method Decide(h: Hashes, inventory: Inventory, q: Request, lookup: Lookup, boot: nat, now: nat)
      returns (outcome: BeginOutcome, ghost victim: Key)
      modifies this
      ensures (Model(), outcome) == Begin(old(Model()), h, inventory, q, lookup, victim, boot, now)
      ensures HasTerminal(old(entries)) ==> IsVictim(old(entries), victim)
    {
      hide Reserve, Evict, IsVictim, HasTerminal, Ended;
      victim := SomeVictim(entries);
      if q.BadIdentity() { return InvalidIdentity, victim; }
      if q.payloadBytes > 65_536 { return PayloadTooLarge, victim; }
      var answer := if q.key in entries then Found(entries[q.key].hash) else lookup;
      match answer {
        case Found(hash) =>
          return if hash != q.hash then ContentConflict else AlreadyKnown, victim;
        case Absent =>
        case Unavailable(reason) =>
          error := reason;
          if !inventory.known { return HistoryUnavailable, victim; }
      }
      if h.digest(q.key) in inventory.digests { return Historical, victim; }
      if h.indexes(q.key) <= seen { return Tombstoned, victim; }
      if |entries| >= CACHE_LIMIT {
        var found, oldest := OldestTerminal();
        if !found { return CacheFull, victim; }
        victim := oldest;
        EvictEntry(oldest);
      }
      ReserveEntry(h, q, boot, now);
      outcome := Reserved;
    }

    /** The reservation itself: tombstone, next revision, snapshot cached and dirty. */
    method ReserveEntry(h: Hashes, q: Request, boot: nat, now: nat)
      modifies this
      ensures Model() == Reserve(old(Model()), h, q, boot, now)
      ensures revision == old(revision) + 1 && seen == old(seen) + h.indexes(q.key)
      ensures var v := Snapshot(q.key, boot, q.port, q.ack, q.hash, Accepted, [], revision, now, error != "", q.size);
              entries == old(entries)[q.key := v] && dirty == old(dirty)[q.key := v]
      ensures ack == old(ack)[(q.port, q.ack) := q.key]
      ensures persisted == old(persisted) && error == old(error) && gap == old(gap)
    {
      seen := seen + h.indexes(q.key);
      revision := revision + 1;
      var v := Snapshot(q.key, boot, q.port, q.ack, q.hash, Accepted, [], revision, now, error != "", q.size);
      ack := ack[(q.port, q.ack) := q.key];
      entries := entries[q.key := v];
      dirty := dirty[q.key := v];
    }

    method Report(port: string, ackId: nat, change: Snapshot -> Snapshot, now: nat)
      modifies this
      ensures Model() == Update(old(Model()), port, ackId, change, now)
      ensures Progressed(old(Model()), port, ackId, change, now, Model())
    {
      UpdateProgresses(Model(), port, ackId, change, now);
      hide Progressed;
      if (port, ackId) !in ack { return; }
      var k := ack[(port, ackId)];
      revision := revision + 1;
      if k !in entries { return; }
      var v := change(entries[k]).(revision := revision, updated := now);
      if |v.attempts| > ATTEMPT_LIMIT {
        v := v.(attempts := v.attempts[|v.attempts| - ATTEMPT_LIMIT..], auditIncomplete := true);
      }
      entries := entries[k := v];
      dirty := dirty[k := v];
    }

    method ConfirmSave(v: Snapshot)
      modifies this
      ensures Model() == AckSaved(old(Model()), v)
      ensures v.key in persisted && persisted[v.key] == v.revision
      ensures forall k :: k in dirty <==> k in old(dirty) && !(k == v.key && old(dirty)[k].revision == v.revision)
      ensures forall k :: k in dirty ==> dirty[k] == old(dirty)[k]
      ensures error == if |dirty| == 0 then "" else old(error)
      ensures entries == old(entries) && ack == old(ack) && revision == old(revision) && seen == old(seen) && gap == old(gap)
    {
      persisted := persisted[v.key := v.revision];
      if v.key in dirty && dirty[v.key].revision == v.revision {
        dirty := dirty - {v.key};
      }
      if dirty == map[] {
        error := "";
      }
    }

    /** After a failed save every buffered snapshot is marked incomplete. */
    method SaveFailed(reason: string)
      modifies this
      ensures Model() == MarkFailed(old(Model()), reason)
      ensures error == reason && entries.Keys == old(entries).Keys && dirty.Keys == old(dirty).Keys
      ensures forall k :: k in entries ==> entries[k] == if k in old(dirty) then old(entries)[k].(auditIncomplete := true) else old(entries)[k]
      ensures forall k :: k in dirty && k in entries ==> dirty[k] == entries[k]
    {
      error := reason;
      entries, dirty := MarkAll(entries, dirty);
      assert entries == MarkFailed(old(Model()), reason).entries;
      assert dirty == MarkFailed(old(Model()), reason).dirty;
    }

    static method MarkAll(entries: map<Key, Snapshot>, dirty: map<Key, Snapshot>)
      returns (marked: map<Key, Snapshot>, buffered: map<Key, Snapshot>)
      ensures forall k :: k in marked <==> k in entries
      ensures forall k :: k in buffered <==> k in dirty
      ensures forall k :: k in entries ==> marked[k] == if k in dirty then Marked(entries[k]) else entries[k]
      ensures forall k :: k in dirty ==> buffered[k] == if k in entries then Marked(entries[k]) else dirty[k]
    {
      marked, buffered := entries, dirty;
      var rest := dirty.Keys;
      while rest != {}
        invariant forall k :: k in rest ==> k in dirty
        invariant forall k :: k in marked <==> k in entries
        invariant forall k :: k in buffered <==> k in dirty
        invariant forall k :: k in entries ==>
                    marked[k] == if k in dirty && k !in rest then Marked(entries[k]) else entries[k]
        invariant forall k :: k in dirty ==>
                    buffered[k] == if k in entries && k !in rest then Marked(entries[k]) else dirty[k]
        decreases |rest|
      {
        var k :| k in rest;
        if k in marked {
          var v := Marked(marked[k]);
          marked := marked[k := v];
          buffered := buffered[k := v];
        }
        rest := rest - {k};
      }
    }

    /** A journal that opens late: buffered snapshots move above its head, in the order returned. */
    method RebaseDirty(head: nat) returns (ghost keys: seq<Key>)
      modifies this
      ensures Model() == Rebase(old(Model()), head, keys)
      ensures forall k :: k in keys <==> k in old(dirty)
      ensures forall i, j :: 0 <= i < j < |keys| ==> keys[i] != keys[j]
      ensures (forall k :: k in old(dirty) ==> k in old(entries)) ==>
                Renumbered(old(Model()), keys, if old(revision) < head then head else old(revision), Model())
    {
      hide RebaseOne;
      if revision < head {
        revision := head;
      }
      ghost var raised := Model();
      keys := [];
      var rest := dirty.Keys;
      while rest != {}
        invariant Model() == RebaseKeys(raised, keys)
        invariant rest <= old(dirty).Keys
        invariant forall k :: k in keys <==> k in old(dirty) && k !in rest
        invariant forall i, j :: 0 <= i < j < |keys| ==> keys[i] != keys[j]
        decreases |rest|
      {
        var k :| k in rest;
        RebaseEntry(k);
        ghost var keys' := keys + [k];
        assert keys'[..|keys'| - 1] == keys;
        keys := keys';
        rest := rest - {k};
      }
      RebaseRenumbers(old(Model()), head, keys);
      hide RebaseKeys, Renumbered;
    }

    method RebaseEntry(k: Key)
      modifies this
      ensures Model() == RebaseOne(old(Model()), k)
    {
      revision := revision + 1;
      if k in entries {
        var v := entries[k].(revision := revision, auditIncomplete := true);
        entries := entries[k := v];
        dirty := dirty[k := v];
      }
    }
  }

  /** Digests of the first `n` rows. */
  function Digests(h: Hashes, rows: seq<Key>, n: nat): set<nat>
    requires n <= |rows|
  {
    set i | 0 <= i < n :: h.digest(rows[i])
  }

  /** The startup inventory of the stored identities: given up exactly when a row is left over after as
      many digests as the bound allows, and otherwise the digest of every stored command. */
  method ReadInventory(h: Hashes, rows: seq<Key>, ghost d: Disk) returns (inventory: Inventory)
    requires forall k :: k in rows <==> k in d.commands
    ensures inventory.known <==> forall i :: 0 <= i < |rows| ==> |Digests(h, rows, i)| < 110_000
    ensures inventory.known ==> forall k :: k in d.commands ==> h.digest(k) in inventory.digests
    ensures JournalProtocol.IsInventory(d, h, inventory)
  {
    var ids: set<nat> := {};
    for i := 0 to |rows|
      invariant ids == Digests(h, rows, i) && |ids| <= KEEP_COUNT + CACHE_LIMIT
      invariant forall j :: 0 <= j < i ==> |Digests(h, rows, j)| < KEEP_COUNT + CACHE_LIMIT
    {
      if |ids| >= KEEP_COUNT + CACHE_LIMIT {
        return Inventory(false, {});
      }
      ids := ids + {h.digest(rows[i])};
    }
    forall k | k in d.commands ensures h.digest(k) in ids {
      var i :| 0 <= i < |rows| && rows[i] == k;
    }
    forall x | x in ids ensures exists k :: k in d.commands && h.digest(k) == x {
      var i :| 0 <= i < |rows| && h.digest(rows[i]) == x;
      assert rows[i] in rows;
    }
    assert ids == set k | k in d.commands :: h.digest(k);
    inventory := Inventory(true, ids);
  }

  function Size(rows: seq<Snapshot>): nat {
    if rows == [] then 0 else Size(rows[..|rows| - 1]) + rows[|rows| - 1].size
  }

  /** The first `n` rows fill a page: together within 1 MiB, or a single one, and the next does not fit. */
  ghost predicate Fills(rows: seq<Snapshot>, n: nat) {
    && n <= |rows| && (rows != [] ==> n > 0)
    && (forall k :: 1 < k <= n ==> Size(rows[..k]) <= 1024 * 1024)
    && (0 < n < |rows| ==> Size(rows[..n + 1]) > 1024 * 1024)
  }

  lemma SizeStep(rows: seq<Snapshot>, n: nat)
    requires n < |rows|
    ensures Size(rows[..n + 1]) == Size(rows[..n]) + rows[n].size
  {
    assert rows[..n + 1][..n] == rows[..n];
  }

  /** The rows that fill a page are the ones that fit. */
  lemma {:induction false} FillsFits(rows: seq<Snapshot>, i: nat, n: nat)
    requires Fills(rows, n) && i <= n
    ensures Fitting(rows[i..], Size(rows[..i]), i == 0) == rows[i..n]
    decreases n - i
  {
    if i < |rows| {
      SizeStep(rows, i);
      assert rows[i..][0] == rows[i] && rows[i..][1..] == rows[i + 1..];
      if i < n {
        if i > 0 { assert Size(rows[..i + 1]) <= 1024 * 1024; }
        FillsFits(rows, i + 1, n);
        assert [rows[i]] + rows[i + 1..n] == rows[i..n];
      }
    }
    hide Size;
  }

  /** The loop that fills one page from the query's rows: as many from the front as fit 1 MiB together,
      and always one. */
  method CollectPage(rows: seq<Snapshot>, after: nat) returns (items: seq<Snapshot>, cursor: nat)
    ensures items == Fitting(rows, 0, true)
    ensures cursor == Cursor(items, after)
    ensures Fills(rows, |items|) && items == rows[..|items|]
    ensures cursor == if rows == [] then after else items[|items| - 1].revision
  {
    hide Fitting, Size;
    items, cursor := [], after;
    var bytes: nat, n := 0, 0;
    NoSize(rows);
    while n < |rows|
      invariant n <= |rows| && n == |items| && items == rows[..n] && bytes == Size(rows[..n])
      invariant cursor == if n == 0 then after else rows[n - 1].revision
      invariant forall k :: 1 < k <= n ==> Size(rows[..k]) <= 1024 * 1024
    {
      SizeStep(rows, n);
      if items != [] && bytes + rows[n].size > PAGE_BYTES { break; }
      bytes := bytes + rows[n].size;
      cursor := rows[n].revision;
      items := items + [rows[n]];
      n := n + 1;
    }
    FillsFits(rows, 0, n);
    assert rows[0..] == rows && rows[0..n] == rows[..n];
  }

  lemma NoSize(rows: seq<Snapshot>)
    ensures Size(rows[..0]) == 0
  {
  }
}
