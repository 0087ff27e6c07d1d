/** The maintenance fence: a persistent fencing token in front of command admission. */
module FenceModel {
  const MAX_U64: nat := 0xffff_ffff_ffff_ffff

  datatype Record = Record(token: nat, deployment: string, active: bool)

  const INITIAL := Record(0, "", false)

  datatype Memory = Memory(record: Record, pending: nat, durable: bool)

  predicate OwnerChar(c: char) {
    'a' <= c <= 'z' || 'A' <= c <= 'Z' || '0' <= c <= '9' || c == '-' || c == '_' || c == '.'
  }

  predicate ValidOwner(deployment: string, token: nat) {
    token != 0 && 0 < |deployment| <= 128 && forall c :: c in deployment ==> OwnerChar(c)
  }

  datatype Refusal = Invalid | UnknownState | Conflict | NotDurable | Undrained

  /** What a transition request leads to before anything is written. */
  datatype Decision = Refuse(why: Refusal) | Done | Persist(next: Record)

  predicate Blocked(m: Memory) {
    m.record.active || !m.durable
  }

  function Admit(m: Memory): (Memory, bool) {
    if Blocked(m) || m.pending >= MAX_U64 then (m, false) else (m.(pending := m.pending + 1), true)
  }

  function EnterDecision(m: Memory, deployment: string, token: nat): Decision {
    if !ValidOwner(deployment, token) then Refuse(Invalid)
    else if !m.durable && !m.record.active then Refuse(UnknownState)
    else if m.record.active && (m.record.deployment != deployment || m.record.token != token) then Refuse(Conflict)
    else if m.record.active && m.durable then Done
    else if !m.record.active && (m.record.token >= MAX_U64 || m.record.token + 1 != token) then Refuse(Conflict)
    else Persist(Record(token, deployment, true))
  }

  /** Admission is blocked together with the decision, before anything is written. */
  function EnterMemory(m: Memory, decision: Decision): Memory {
    if decision.Persist? then m.(record := decision.next, durable := false) else m
  }

  function LeaveDecision(m: Memory, deployment: string, token: nat, ports: nat): Decision {
    if !ValidOwner(deployment, token) then Refuse(Invalid)
    else if m.record.deployment != deployment || m.record.token != token then Refuse(Conflict)
    else if !m.durable then Refuse(NotDurable)
    else if !m.record.active then Done
    else if m.pending != 0 || ports != 0 then Refuse(Undrained)
    else Persist(m.record.(active := false))
  }

  function Confirm(m: Memory, next: Record, saved: bool): Memory {
    if saved then m.(record := next, durable := true) else m.(durable := false)
  }

  predicate Drained(m: Memory, ports: nat) {
    m.record.active && m.durable && m.pending == 0 && ports == 0
  }

  /** The gate as the program keeps it behind its state lock. */
  class Gate {
    var record: Record
    var pending: nat
    var durable: bool
    var error: string

    ghost function Model(): Memory
      reads this
    {
      Memory(record, pending, durable)
    }

    /** `loaded` is what the durable record said, or nothing when it was unreadable or invalid. */
    constructor (readable: bool, loaded: Record)
      ensures Model() == if readable then Memory(loaded, 0, true) else Memory(INITIAL, 0, false)
    {
      record := if readable then loaded else INITIAL;
      pending, durable, error := 0, readable, if readable then "" else "unreadable";
    }

    method Reserve() returns (granted: bool)
      modifies this
      ensures (Model(), granted) == Admit(old(Model()))
      ensures granted <==> old(durable) && !old(record).active && old(pending) < MAX_U64
      ensures Model() == old(Model()).(pending := old(pending) + if granted then 1 else 0)
    {
      if record.active || !durable || pending >= MAX_U64 { return false; }
      pending := pending + 1;
      granted := true;
    }

    method Drop()
      requires pending > 0
      modifies this`pending
      ensures Model() == old(Model()).(pending := old(pending) - 1)
    {
      pending := pending - 1;
    }

    method Enter(deployment: string, token: nat) returns (decision: Decision)
      modifies this
      ensures decision == EnterDecision(old(Model()), deployment, token)
      ensures Model() == EnterMemory(old(Model()), decision)
      ensures decision.Persist? ==> record == decision.next == Record(token, deployment, true) && !durable
      ensures !decision.Persist? ==> record == old(record) && durable == old(durable)
      ensures pending == old(pending)
    {
      if !ValidOwner(deployment, token) { return Refuse(Invalid); }
      if !durable && !record.active { return Refuse(UnknownState); }
      if record.active {
        if record.deployment != deployment || record.token != token { return Refuse(Conflict); }
        if durable { return Done; }
      } else if record.token >= MAX_U64 || record.token + 1 != token {
        return Refuse(Conflict);
      }
      record := record.(active := true, deployment := deployment, token := token);
      durable := false;
      decision := Persist(record);
    }

    method Leave(deployment: string, token: nat, ports: nat) returns (decision: Decision)
      ensures decision == LeaveDecision(Model(), deployment, token, ports)
    {
      if !ValidOwner(deployment, token) { return Refuse(Invalid); }
      if record.deployment != deployment || record.token != token { return Refuse(Conflict); }
      if !durable { return Refuse(NotDurable); }
      if !record.active { return Done; }
      if pending != 0 || ports != 0 { return Refuse(Undrained); }
      decision := Persist(record.(active := false));
    }

    /** What the status report says. */
    method Status(ports: nat) returns (blocked: bool, drained: bool)
      ensures blocked == Blocked(Model()) && drained == Drained(Model(), ports)
      ensures blocked <==> record.active || !durable
      ensures drained <==> record.active && durable && pending == 0 && ports == 0
    {
      blocked := record.active || !durable;
      drained := record.active && durable && pending == 0 && ports == 0;
    }

    method Saved(next: Record, ok: bool, reason: string)
      modifies this
      ensures Model() == Confirm(old(Model()), next, ok)
      ensures ok ==> record == next && durable && error == ""
      ensures !ok ==> record == old(record) && !durable && error == reason
      ensures pending == old(pending)
    {
      if ok {
        record, durable, error := next, true, "";
      } else {
        durable, error := false, reason;
      }
    }
  }
}

/** The fence over every interleaving of admissions, transitions, ambiguous saves, crashes and restarts. */
module FenceProtocol {
  import opened FenceModel

  datatype Owner = Owner(deployment: string, token: nat)

  datatype Kind = Entering | Leaving

  /** A save in progress, with who asked for it and how many ports were busy then; the transition lock
      admits one at a time. */
  datatype Saving = Quiet | Busy(kind: Kind, next: Record, committed: bool, requester: Owner, ports: nat)

  /** A running gateway; `ports` counts ports with a queued or running operation. */
  datatype Process = Down | Up(mem: Memory, ports: nat, saving: Saving)

  datatype System = System(
    disk: Record,
    proc: Process,
    acked: seq<Owner>)  // history: acknowledged enters, oldest first

  datatype Step =
    | Crash
    | Start(readable: bool)
    | AdmitOne
    | DropOne
    | PortStart             // an admitted operation occupies a port
    | PortDone              // a port finishes, its admission dropped or not
    | Enter(deployment: string, token: nat)
    | Leave(deployment: string, token: nat)
    | WriteDisk             // the record reaches the disk
    | ReportSaved           // the save call returned success
    | ReportFailed          // the save call returned an error, written or not

  predicate Enabled(s: System, step: Step) {
    match step
    case Crash => s.proc.Up?
    case Start(_) => s.proc.Down?
    case AdmitOne => s.proc.Up? && Admit(s.proc.mem).1
    case DropOne => s.proc.Up? && s.proc.mem.pending > 0
    case PortStart => s.proc.Up? && s.proc.mem.pending > 0
    case PortDone => s.proc.Up? && s.proc.ports > 0
    case Enter(_, _) => s.proc.Up? && s.proc.saving.Quiet?
    case Leave(_, _) => s.proc.Up? && s.proc.saving.Quiet?
    case WriteDisk => s.proc.Up? && s.proc.saving.Busy? && !s.proc.saving.committed
    case ReportSaved => s.proc.Up? && s.proc.saving.Busy? && s.proc.saving.committed
    case ReportFailed => s.proc.Up? && s.proc.saving.Busy?
  }

  function Acknowledge(s: System, deployment: string, token: nat): System {
    s.(acked := s.acked + [Owner(deployment, token)])
  }

  function Apply(s: System, step: Step): System
    requires Enabled(s, step)
  {
    match step
    case Crash => s.(proc := Down)
    case Start(readable) =>
      s.(proc := Up(if readable then Memory(s.disk, 0, true) else Memory(INITIAL, 0, false), 0, Quiet))
    case AdmitOne => s.(proc := s.proc.(mem := Admit(s.proc.mem).0))
    case DropOne => s.(proc := s.proc.(mem := s.proc.mem.(pending := s.proc.mem.pending - 1)))
    case PortStart => s.(proc := s.proc.(ports := s.proc.ports + 1))
    case PortDone => s.(proc := s.proc.(ports := s.proc.ports - 1))
    case Enter(deployment, token) =>
      var decision := EnterDecision(s.proc.mem, deployment, token);
      if decision.Persist? then
        s.(proc := s.proc.(mem := EnterMemory(s.proc.mem, decision),
                           saving := Busy(Entering, decision.next, false, Owner(deployment, token), s.proc.ports)))
      else if decision.Done? then Acknowledge(s, deployment, token)
      else s
    case Leave(deployment, token) =>
      var decision := LeaveDecision(s.proc.mem, deployment, token, s.proc.ports);
      if decision.Persist?
      then s.(proc := s.proc.(saving := Busy(Leaving, decision.next, false, Owner(deployment, token), s.proc.ports)))
      else s
    case WriteDisk =>
      s.(disk := s.proc.saving.next, proc := s.proc.(saving := s.proc.saving.(committed := true)))
    case ReportSaved =>
      var next := s.proc.saving.next;
      var s' := s.(proc := s.proc.(mem := Confirm(s.proc.mem, next, true), saving := Quiet));
      if s.proc.saving.kind.Entering? then Acknowledge(s', next.deployment, next.token) else s'
    case ReportFailed =>
      s.(proc := s.proc.(mem := Confirm(s.proc.mem, s.proc.saving.next, false), saving := Quiet))
  }

  // -------------------------------------------------------------- invariants

  /** The disk may lag one unconfirmed enter behind memory, or lead by an unconfirmed leave. */
  predicate Unconfirmed(disk: Record, record: Record) {
    || disk == record
    || disk == record.(active := false)
    || (!disk.active && disk.token + 1 == record.token)
  }

  predicate ProcessInv(disk: Record, proc: Process) {
    proc.Up? ==>
      var m, w := proc.mem, proc.saving;
      if m.durable then
        (w.Quiet? && m.record == disk) ||
        (w.Busy? && w.kind.Leaving? && m.record.active && m.pending == 0
           && w.next == m.record.(active := false)
           && w.requester == Owner(m.record.deployment, m.record.token) && w.ports == 0 && proc.ports == 0
           && disk == if w.committed then w.next else m.record)
      else if m.record.active then
        && Unconfirmed(disk, m.record)
        && (w.Busy? ==> w.kind.Entering? && w.next == m.record && (w.committed ==> disk == m.record))
      else w.Quiet?
  }

  ghost predicate AckInv(disk: Record, acked: seq<Owner>) {
    && (forall o :: o in acked ==> o.token <= disk.token && (o.token == disk.token ==> o.deployment == disk.deployment))
    && (forall i, j :: 0 <= i < j < |acked| ==> acked[i].token <= acked[j].token)
    && (forall o, q :: o in acked && q in acked && o.token == q.token ==> o == q)
  }

  ghost predicate Inv(s: System) {
    ProcessInv(s.disk, s.proc) && AckInv(s.disk, s.acked)
  }

  ghost predicate Init(s: System) {
    s == System(INITIAL, Down, [])
  }

  ghost predicate Next(s: System, s': System) {
    exists step :: Enabled(s, step) && s' == Apply(s, step)
  }

  ghost predicate IsRun(run: seq<System>) {
    run != [] && Init(run[0]) && forall i :: 0 <= i < |run| - 1 ==> Next(run[i], run[i + 1])
  }

  /** A record written to disk has the next token, or the same owner. */
  lemma WrittenRecord(s: System)
    requires Inv(s) && Enabled(s, WriteDisk)
    ensures var next := s.proc.saving.next;
      next.token == s.disk.token + 1 || (next.token == s.disk.token && next.deployment == s.disk.deployment)
  {
  }

  lemma AcknowledgeKeeps(disk: Record, acked: seq<Owner>, deployment: string, token: nat)
    requires AckInv(disk, acked) && disk.token == token && disk.deployment == deployment
    ensures AckInv(disk, acked + [Owner(deployment, token)])
  {
    var acked' := acked + [Owner(deployment, token)];
    forall i, j | 0 <= i < j < |acked'|
      ensures acked'[i].token <= acked'[j].token
    {
      assert acked'[i] == acked[i] && acked[i] in acked;
    }
  }

  lemma {:induction false} StepKeeps(s: System, step: Step)
    requires Inv(s) && Enabled(s, step)
    ensures Inv(Apply(s, step))
    ensures s.disk.token <= Apply(s, step).disk.token
  {
    match step
    case WriteDisk => WrittenRecord(s);
    case Enter(deployment, token) =>
      if EnterDecision(s.proc.mem, deployment, token).Done? {
        AcknowledgeKeeps(s.disk, s.acked, deployment, token);
      }
    case ReportSaved =>
      if s.proc.saving.kind.Entering? {
        AcknowledgeKeeps(s.disk, s.acked, s.proc.saving.next.deployment, s.proc.saving.next.token);
      }
    case _ =>
  }

  lemma {:induction false} RunKeeps(run: seq<System>, n: nat)
    requires IsRun(run) && n < |run|
    ensures Inv(run[n])
  {
    if n > 0 {
      RunKeeps(run, n - 1);
      assert Next(run[n - 1], run[n]);
      var step :| Enabled(run[n - 1], step) && run[n] == Apply(run[n - 1], step);
      StepKeeps(run[n - 1], step);
    }
  }

  // -------------------------------------------------------------- exact decisions

  /** A positive token and a name of 1 to 128 letters, digits, hyphens, underscores and dots. */
  predicate Named(deployment: string, token: nat) {
    && token >= 1 && 1 <= |deployment| < 129
    && forall c :: c in deployment ==>
         c in ['-', '_', '.'] || '0' as int <= c as int < '0' as int + 10
         || 'a' as int <= c as int < 'a' as int + 26 || 'A' as int <= c as int < 'A' as int + 26
  }

  /** When entering is granted, already granted, or refused, and why. */
  lemma EnterExactly(m: Memory, deployment: string, token: nat)
    ensures var d := EnterDecision(m, deployment, token);
            var valid, owner := Named(deployment, token), m.record.deployment == deployment && m.record.token == token;
      && (d == Refuse(Invalid) <==> !valid)
      && (d == Refuse(UnknownState) <==> valid && !m.durable && !m.record.active)
      && (d == Refuse(Conflict) <==>
            valid && if m.record.active then !owner else m.durable && (m.record.token >= MAX_U64 || token != m.record.token + 1))
      && (d == Done <==> valid && m.record.active && owner && m.durable)
      && (d.Persist? <==> valid && if m.record.active then owner && !m.durable else m.durable && m.record.token < MAX_U64 && token == m.record.token + 1)
      && (d.Persist? ==> d.next == Record(token, deployment, true))
  {
  }

  /** The same for leaving. */
  lemma LeaveExactly(m: Memory, deployment: string, token: nat, ports: nat)
    ensures var d := LeaveDecision(m, deployment, token, ports);
            var valid, owner := Named(deployment, token), m.record.deployment == deployment && m.record.token == token;
      && (d == Refuse(Invalid) <==> !valid)
      && (d == Refuse(Conflict) <==> valid && !owner)
      && (d == Refuse(NotDurable) <==> valid && owner && !m.durable)
      && (d == Done <==> valid && owner && m.durable && !m.record.active)
      && (d == Refuse(Undrained) <==> valid && owner && m.durable && m.record.active && (m.pending > 0 || ports > 0))
      && (d.Persist? <==> valid && owner && m.durable && m.record.active && m.pending == 0 && ports == 0)
      && (d.Persist? ==> d.next == Record(token, deployment, false))
  {
  }

  // -------------------------------------------------------------------- progress

  /** THEOREM: admission is granted exactly by a running process whose fence is durable and inactive and
      whose counter has room; the fence on disk is then inactive. */
  lemma AdmissionExactly(run: seq<System>, n: nat)
    requires IsRun(run) && n < |run|
    ensures Enabled(run[n], AdmitOne) <==>
            run[n].proc.Up? && run[n].proc.mem.durable && !run[n].proc.mem.record.active && run[n].proc.mem.pending < MAX_U64
    ensures Enabled(run[n], AdmitOne) && run[n].proc.saving.Quiet? ==> !run[n].disk.active && run[n].disk == run[n].proc.mem.record
    ensures Enabled(run[n], AdmitOne) ==>
            Apply(run[n], AdmitOne) == run[n].(proc := run[n].proc.(mem := run[n].proc.mem.(pending := run[n].proc.mem.pending + 1)))
  {
    RunKeeps(run, n);
  }

  /** An active fence names a valid owner, wherever it is recorded. */
  predicate OwnersValid(s: System) {
    && (s.disk.active ==> ValidOwner(s.disk.deployment, s.disk.token))
    && (s.proc.Up? && s.proc.mem.record.active ==> ValidOwner(s.proc.mem.record.deployment, s.proc.mem.record.token))
    && (s.proc.Up? && s.proc.saving.Busy? && s.proc.saving.next.active ==>
          ValidOwner(s.proc.saving.next.deployment, s.proc.saving.next.token))
  }

  lemma {:induction false} ActiveOwnersValid(run: seq<System>, n: nat)
    requires IsRun(run) && n < |run|
    ensures OwnersValid(run[n])
  {
    hide ValidOwner;
    if n > 0 {
      ActiveOwnersValid(run, n - 1);
      assert Next(run[n - 1], run[n - 1 + 1]);
    }
  }

  /** Three steps one after the other. */
  ghost predicate Steps(s: System, a: Step, b: Step, c: Step, t: System) {
    Enabled(s, a) && var s1 := Apply(s, a); Enabled(s1, b) && var s2 := Apply(s1, b); Enabled(s2, c) && t == Apply(s2, c)
  }

  /** THEOREM: from a quiet state with a durable inactive fence, a valid owner with the next token that
      asks, is written and confirmed, has the fence: on disk, acknowledged, admissions closed. */
  lemma EnterSucceeds(run: seq<System>, n: nat, deployment: string, token: nat) returns (t: System)
    requires IsRun(run) && n < |run| && run[n].proc.Up? && run[n].proc.saving.Quiet?
    requires run[n].proc.mem.durable && !run[n].proc.mem.record.active
    requires ValidOwner(deployment, token) && token == run[n].disk.token + 1 <= MAX_U64
    ensures Steps(run[n], Enter(deployment, token), WriteDisk, ReportSaved, t)
    ensures t.disk == Record(token, deployment, true) && t.acked == run[n].acked + [Owner(deployment, token)]
    ensures t.proc == Up(Memory(t.disk, run[n].proc.mem.pending, true), run[n].proc.ports, Quiet) && !Enabled(t, AdmitOne)
  {
    RunKeeps(run, n);
    t := Apply(Apply(Apply(run[n], Enter(deployment, token)), WriteDisk), ReportSaved);
  }

  /** THEOREM: the recorded owner of a durable, drained fence that asks to leave, is written and
      confirmed, releases it: the disk fence is inactive with its token kept, and admission open. */
  lemma LeaveSucceeds(run: seq<System>, n: nat) returns (t: System)
    requires IsRun(run) && n < |run| && run[n].proc.Up? && run[n].proc.saving.Quiet?
    requires run[n].proc.mem.record.active && run[n].proc.mem.durable && run[n].proc.mem.pending == 0 && run[n].proc.ports == 0
    ensures Steps(run[n], Leave(run[n].disk.deployment, run[n].disk.token), WriteDisk, ReportSaved, t)
    ensures t.disk == run[n].disk.(active := false) && t.acked == run[n].acked
    ensures t.proc == Up(Memory(t.disk, 0, true), 0, Quiet) && Enabled(t, AdmitOne)
  {
    RunKeeps(run, n);
    ActiveOwnersValid(run, n);
    t := Apply(Apply(Apply(run[n], Leave(run[n].disk.deployment, run[n].disk.token)), WriteDisk), ReportSaved);
  }

  /** THEOREM: a restart that can read the record resumes it: an inactive fence admits again, an active
      one is closed and drained, and its owner can release it; one that cannot read it admits nothing. */
  lemma RestartResumes(run: seq<System>, n: nat, readable: bool)
    requires IsRun(run) && n < |run| && run[n].proc.Down?
    ensures Enabled(run[n], Start(readable))
    ensures var t := Apply(run[n], Start(readable));
      && t.disk == run[n].disk && t.acked == run[n].acked && t.proc.Up? && t.proc.saving.Quiet? && t.proc.ports == 0
      && (Enabled(t, AdmitOne) <==> readable && !run[n].disk.active)
      && (readable && run[n].disk.active ==>
            Drained(t.proc.mem, 0) && LeaveDecision(t.proc.mem, run[n].disk.deployment, run[n].disk.token, 0).Persist?)
  {
    RunKeeps(run, n);
    ActiveOwnersValid(run, n);
  }

  // ---------------------------------------------------------------- theorems

  /** THEOREM: a token is acknowledged to at most one deployment, and acknowledged tokens only rise. */
  lemma TokensFence(run: seq<System>, n: nat)
    requires IsRun(run) && n < |run|
    ensures forall o, q :: o in run[n].acked && q in run[n].acked && o.token == q.token ==> o.deployment == q.deployment
    ensures forall i, j :: 0 <= i < j < |run[n].acked| ==> run[n].acked[i].token <= run[n].acked[j].token
  {
    RunKeeps(run, n);
  }

  /** THEOREM: once a higher token was acknowledged, the earlier owner can neither re-enter nor
      release, in any later state of any process. */
  lemma SupersededOwnerIsFenced(run: seq<System>, n: nat, earlier: Owner, newer: Owner, ports: nat)
    requires IsRun(run) && n < |run| && run[n].proc.Up?
    requires earlier in run[n].acked && newer in run[n].acked && earlier.token < newer.token
    ensures EnterDecision(run[n].proc.mem, earlier.deployment, earlier.token).Refuse?
    ensures LeaveDecision(run[n].proc.mem, earlier.deployment, earlier.token, ports).Refuse?
  {
    RunKeeps(run, n);
  }

  /** THEOREM: while the disk holds an active fence no admission is granted, in whatever process
      lifetime and whatever an interrupted or unconfirmed save left in memory. */
  lemma NoAdmissionWhileFenced(run: seq<System>, n: nat)
    requires IsRun(run) && n < |run| && run[n].disk.active
    ensures !Enabled(run[n], AdmitOne)
  {
    RunKeeps(run, n);
  }

  /** An acknowledged enter is on disk as an active fence at that moment. */
  lemma AcknowledgedMeansFenced(run: seq<System>, n: nat)
    requires IsRun(run) && n + 1 < |run| && |run[n + 1].acked| > |run[n].acked|
    ensures var o := run[n + 1].acked[|run[n].acked|];
            run[n + 1].disk == Record(o.token, o.deployment, true)
  {
    RunKeeps(run, n);
    assert Next(run[n], run[n + 1]);
  }

  /** An active fence leaves the disk only by a leave that the recorded owner asked for with its token,
      when no admission was outstanding and no port busy. */
  lemma OnlyTheOwnersLeaveReleases(run: seq<System>, n: nat)
    requires IsRun(run) && n + 1 < |run| && run[n].disk.active && run[n + 1].disk != run[n].disk
    ensures run[n + 1].disk == run[n].disk.(active := false)
    ensures run[n].proc.Up? && run[n].proc.saving.Busy? && run[n].proc.saving.kind.Leaving?
    ensures run[n].proc.saving.requester == Owner(run[n].disk.deployment, run[n].disk.token)
    ensures run[n].proc.saving.ports == 0 && run[n].proc.ports == 0 && run[n].proc.mem.pending == 0
  {
    RunKeeps(run, n);
    assert Next(run[n], run[n + 1]);
  }

  /** The record of a release reaches the disk. */
  predicate ReleaseCommits(s: System, s': System) {
    s.proc.Up? && s.proc.saving.Busy? && s.proc.saving.kind.Leaving? && !s.proc.saving.committed
    && s'.disk == s.proc.saving.next
  }

  /** THEOREM: from an acknowledged enter until that owner's release commits, the fence stays on
      disk and no admission is granted, through any number of crashes and restarts. */
  lemma {:induction false} FenceHoldsUntilRelease(run: seq<System>, n: nat, j: nat)
    requires IsRun(run) && n < j < |run| && |run[n + 1].acked| > |run[n].acked|
    requires forall k :: n < k < j ==> !ReleaseCommits(run[k], run[k + 1])
    ensures var o := run[n + 1].acked[|run[n].acked|]; run[j].disk == Record(o.token, o.deployment, true)
    ensures !Enabled(run[j], AdmitOne)
  {
    if j == n + 1 {
      AcknowledgedMeansFenced(run, n);
    } else {
      FenceHoldsUntilRelease(run, n, j - 1);
      assert !ReleaseCommits(run[j - 1], run[j - 1 + 1]);
      if run[j].disk != run[j - 1].disk {
        OnlyTheOwnersLeaveReleases(run, j - 1);
      }
    }
    NoAdmissionWhileFenced(run, j);
  }

  /** Nothing admitted is outstanding and no port is busy. */
  predicate Empty(s: System) {
    s.proc.Up? ==> s.proc.mem.pending == 0 && s.proc.ports == 0
  }

  /** THEOREM: a reported drain stays drained, across crashes and restarts, until the fence leaves
      the disk. */
  lemma {:induction false} DrainStaysDrained(run: seq<System>, i: nat, j: nat)
    requires IsRun(run) && i <= j < |run|
    requires run[i].proc.Up? && Drained(run[i].proc.mem, run[i].proc.ports)
    requires forall k :: i <= k <= j ==> run[k].disk.active
    ensures Empty(run[j])
  {
    hide Enabled, Apply, Empty;
    if i == j {
      DrainedIsEmpty(run[i]);
    } else {
      DrainStaysDrained(run, i, j - 1);
      assert run[j - 1].disk.active;
      NoAdmissionWhileFenced(run, j - 1);
      assert Next(run[j - 1], run[j - 1 + 1]);
      var step :| Enabled(run[j - 1], step) && run[j] == Apply(run[j - 1], step);
      StepStaysEmpty(run[j - 1], step);
    }
  }

  lemma {:induction false} DrainedIsEmpty(s: System)
    requires s.proc.Up? && Drained(s.proc.mem, s.proc.ports)
    ensures Empty(s)
  {
  }

  lemma StepStaysEmpty(s: System, step: Step)
    requires Empty(s) && Enabled(s, step) && !Enabled(s, AdmitOne)
    ensures Empty(Apply(s, step))
  {
  }
}
