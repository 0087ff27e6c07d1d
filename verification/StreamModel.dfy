/** What the stream worker does with a sequence of turns, as functions of those turns. */
module StreamModel {
  import opened Basics
  import opened Points
  import opened Mailboxes
  import UnitReport
  import Frame
  import FrameStream

  /** One transport read: some bytes, a timeout, or a failure. */
  datatype Read = Data(bytes: Bytes) | Quiet | Broken

  datatype Response = Matched(updates: seq<Update>) | Ignore | Mismatch

  /** What the environment supplies to one turn of the loop: the read, the three clock readings, the
      mailbox as it stands at the send decision, and whether a write completes. */
  datatype Turn = Turn(read: Read, readAt: nat, decideAt: nat, mail: Mail, writes: bool, doneAt: nat)

  /** A transmission: the turn it was decided in, when it was decided and finished, what it carried. */
  datatype Sent = Sent(turn: nat, at: nat, done: nat, mail: Mail, payload: Bytes, frame: Bytes)

  /** The points of one task and the protocol that turns payloads into batches for them. */
  datatype Contract = Contract(
    definitions: map<string, Definition>, tasks: map<string, seq<string>>, task: string, respond: Bytes -> Response)

  datatype Setup = Setup(
    codec: Frame.Codec, limits: Frame.Limits, period: nat, gap: nat, frameTimeout: nat, receiveTimeout: nat, contract: Contract)

  /** The read buffer's capacity. */
  function Capacity(limits: Frame.Limits): nat {
    if limits.frame < 1024 then limits.frame else 1024
  }

  predicate Heard(limits: Frame.Limits, t: Turn) {
    t.read.Data? && 0 < |t.read.bytes| <= Capacity(limits)
  }

  /** A failed read, or one that reports an impossible count. */
  predicate Lost(limits: Frame.Limits, t: Turn) {
    !Heard(limits, t) && !t.read.Quiet?
  }

  /** A connection is lost by a failed read, or by one that reports no bytes or more than the buffer holds,
      which is a kilobyte or a frame if that is shorter. */
  lemma LostExactly(limits: Frame.Limits, t: Turn)
    ensures Lost(limits, t) <==>
      t.read.Broken? || (t.read.Data? && (|t.read.bytes| == 0 || |t.read.bytes| > 1024 || |t.read.bytes| > limits.frame))
  {
  }

  /** The clock never runs backwards. */
  predicate Ordered(start: nat, turns: seq<Turn>) {
    && (forall i :: 0 <= i < |turns| ==> start <= turns[i].readAt <= turns[i].decideAt <= turns[i].doneAt)
    && (forall i :: 0 < i < |turns| ==> turns[i - 1].doneAt <= turns[i].readAt)
  }

  // ------------------------------------------------------------------- what is heard

  /** Undecoded bytes, and since when there have been some. */
  datatype Ear = Ear(buffer: Bytes, partialSince: Option<nat>)

  datatype Listened = Listened(ear: Ear, payloads: seq<Bytes>)

  /** The read of a turn: payloads decoded, and the partial frame's deadline started by its first byte. */
  function Listen(setup: Setup, ear: Ear, t: Turn): Listened {
    if !Heard(setup.limits, t) then Listened(ear, [])
    else
      var s := FrameStream.Scan(setup.codec, setup.limits, ear.buffer + t.read.bytes);
      var payloads := FrameStream.Payloads(s.trace);
      var since := if payloads == [] && ear.partialSince.Some? then ear.partialSince else Some(t.readAt);
      Listened(Ear(s.rest, if s.rest == [] then None else since), payloads)
  }

  predicate Expired(setup: Setup, ear: Ear, now: nat) {
    ear.partialSince.Some? && Elapsed(now, ear.partialSince.value) >= setup.frameTimeout
  }

  /** Giving up on an expired partial frame. */
  function GiveUp(setup: Setup, ear: Ear, now: nat): Listened {
    if Expired(setup, ear, now)
    then Listened(Ear([], None), FrameStream.Payloads(FrameStream.Recover(setup.codec, setup.limits, ear.buffer)))
    else Listened(ear, [])
  }

  function EarStep(setup: Setup, ear: Ear, t: Turn): Ear {
    GiveUp(setup, Listen(setup, ear, t).ear, t.decideAt).ear
  }

  function Recovered(setup: Setup, ear: Ear, t: Turn): seq<Bytes> {
    GiveUp(setup, Listen(setup, ear, t).ear, t.decideAt).payloads
  }

  /** The ear after the first `n` turns. */
  function EarAfter(setup: Setup, ear: Ear, turns: seq<Turn>, n: nat): Ear
    requires n <= |turns|
  {
    if n == 0 then ear else EarStep(setup, EarAfter(setup, ear, turns, n - 1), turns[n - 1])
  }

  /** A payload decoded in turn `j` at time `at`, from the read or from an expired buffer. */
  ghost predicate DecodedIn(setup: Setup, ear: Ear, turns: seq<Turn>, j: nat, payload: Bytes, at: nat)
    requires j < |turns|
  {
    var before := EarAfter(setup, ear, turns, j);
    || (payload in Listen(setup, before, turns[j]).payloads && at == turns[j].readAt)
    || (payload in Recovered(setup, before, turns[j]) && at == turns[j].decideAt)
  }

  // ------------------------------------------------------------------- what is shown

  /** The samples, the time of the last whole batch, and whether the peer has been given up. */
  datatype Shown = Shown(samples: map<string, Sample>, lastValid: nat, timedOut: bool, received: bool)

  predicate Accepts(c: Contract, updates: seq<Update>) {
    c.task in c.tasks && |c.tasks[c.task]| == |updates| && Complete(c.definitions, c.task, updates)
  }

  /** A payload that refreshes the task: matched, and complete as a batch. */
  predicate Refreshes(c: Contract, payload: Bytes) {
    c.respond(payload).Matched? && Accepts(c, c.respond(payload).updates)
  }

  function FailShown(c: Contract, shown: Shown, quality: Quality): Shown {
    if c.task in c.tasks then shown.(samples := FailedAt(shown.samples, c.tasks[c.task], quality)) else shown
  }

  function FailureQuality(shown: Shown): Quality {
    if shown.timedOut then NoCommunication else Configuration
  }

  /** One decoded payload: a complete batch is stored whole, an ignored one changes nothing, anything
      else fails the points. */
  function TakeOne(c: Contract, shown: Shown, payload: Bytes, now: nat): Shown {
    match c.respond(payload)
    case Matched(updates) =>
      if Accepts(c, updates) then Shown(Overlaid(shown.samples, updates, now), now, false, true)
      else FailShown(c, shown, FailureQuality(shown))
    case Ignore => shown
    case Mismatch => FailShown(c, shown, FailureQuality(shown))
  }

  function Take(c: Contract, shown: Shown, payloads: seq<Bytes>, now: nat): Shown {
    if payloads == [] then shown
    else TakeOne(c, Take(c, shown, payloads[..|payloads| - 1], now), payloads[|payloads| - 1], now)
  }

  /** The liveness check: silence for the receive timeout fails the points, once. */
  function Watch(setup: Setup, shown: Shown, now: nat): Shown {
    if !shown.timedOut && Elapsed(now, shown.lastValid) >= setup.receiveTimeout
    then FailShown(setup.contract, shown, NoCommunication).(timedOut := true)
    else shown
  }

  function ShownStep(setup: Setup, ear: Ear, shown: Shown, t: Turn): Shown {
    var read := Take(setup.contract, shown, Listen(setup, ear, t).payloads, t.readAt);
    Watch(setup, Take(setup.contract, read, Recovered(setup, ear, t), t.decideAt), t.decideAt)
  }

  function ShownAfter(setup: Setup, ear: Ear, shown: Shown, turns: seq<Turn>, n: nat): Shown
    requires n <= |turns|
  {
    if n == 0 then shown
    else ShownStep(setup, EarAfter(setup, ear, turns, n - 1), ShownAfter(setup, ear, shown, turns, n - 1), turns[n - 1])
  }

  // -------------------------------------------------------------------- what is sent

  /** When the next transmission is due, and when a byte was last heard. */
  datatype Sender = Sender(due: nat, lastRx: nat)

  function LastRx(setup: Setup, sender: Sender, t: Turn): nat {
    if Heard(setup.limits, t) then t.readAt else sender.lastRx
  }

  predicate MaySend(setup: Setup, ear: Ear, due: nat, lastRx: nat, now: nat) {
    now >= due && ear.partialSince.None? && Elapsed(now, lastRx) >= setup.gap
  }

  function SenderStep(setup: Setup, ear: Ear, sender: Sender, t: Turn): Sender {
    var heard := LastRx(setup, sender, t);
    Sender(if MaySend(setup, ear, sender.due, heard, t.decideAt) then t.doneAt + setup.period else sender.due, heard)
  }

  /** The transmission of a turn, given the ear at its send decision. */
  function Transmission(setup: Setup, ear: Ear, sender: Sender, t: Turn, index: nat): Option<Sent> {
    if MaySend(setup, ear, sender.due, LastRx(setup, sender, t), t.decideAt) && Outgoing(t.mail, t.decideAt).Some? then
      var payload := Outgoing(t.mail, t.decideAt).value;
      match Frame.Encode(setup.codec, payload, setup.limits)
      case Ok(frame) => Some(Sent(index, t.decideAt, t.doneAt, t.mail, payload, frame))
      case Err(_) => None
    else None
  }

  datatype Sending = Sending(sender: Sender, sent: seq<Sent>)

  function SendingAfter(setup: Setup, ear: Ear, sender: Sender, turns: seq<Turn>, n: nat): Sending
    requires n <= |turns|
  {
    if n == 0 then Sending(sender, [])
    else
      var before := SendingAfter(setup, ear, sender, turns, n - 1);
      var now := EarAfter(setup, ear, turns, n);
      var sent := Transmission(setup, now, before.sender, turns[n - 1], n - 1);
      Sending(SenderStep(setup, now, before.sender, turns[n - 1]), before.sent + if sent.Some? then [sent.value] else [])
  }

  // ------------------------------------------------------------ partial frames over a run

  predicate Tracks(ear: Ear) {
    ear.partialSince.Some? <==> ear.buffer != []
  }

  lemma {:induction false} EarStepTracks(setup: Setup, ear: Ear, t: Turn)
    requires Tracks(ear)
    ensures Tracks(EarStep(setup, ear, t))
  {
    hide FrameStream.Scan, FrameStream.Payloads, FrameStream.Recover;
  }

  /** THEOREM: in every run the partial time is set exactly when undecoded bytes are buffered. */
  lemma {:induction false} PartialTracksBuffer(setup: Setup, ear: Ear, turns: seq<Turn>, n: nat)
    requires Tracks(ear) && n <= |turns|
    ensures Tracks(EarAfter(setup, ear, turns, n))
    decreases n
  {
    if n > 0 {
      PartialTracksBuffer(setup, ear, turns, n - 1);
      EarStepTracks(setup, EarAfter(setup, ear, turns, n - 1), turns[n - 1]);
    }
  }

  /** Turn `j` heard the first byte of what is still undecoded after turn `n`: there was nothing before,
      or a payload was completed in it, and no payload has been completed since. */
  ghost predicate Began(setup: Setup, ear: Ear, turns: seq<Turn>, n: nat, j: nat)
    requires n <= |turns|
  {
    && j < n && Heard(setup.limits, turns[j])
    && (EarAfter(setup, ear, turns, j).buffer == [] || Listen(setup, EarAfter(setup, ear, turns, j), turns[j]).payloads != [])
    && forall m :: j < m < n ==> NoPayload(setup, ear, turns, m)
  }

  ghost predicate NoPayload(setup: Setup, ear: Ear, turns: seq<Turn>, m: nat)
    requires m < |turns|
  {
    Listen(setup, EarAfter(setup, ear, turns, m), turns[m]).payloads == [] && EarAfter(setup, ear, turns, m).buffer != []
  }

  /** THEOREM: the partial time is that of the turn in which the undecoded bytes began, whatever was read
      since, and after every turn it is younger than the frame timeout: a partial frame never outlives it. */
  lemma {:induction false} PartialClock(setup: Setup, ear: Ear, turns: seq<Turn>, n: nat)
    requires ear == Ear([], None) && n <= |turns|
    ensures var now := EarAfter(setup, ear, turns, n);
      now.buffer != [] ==>
        && now.partialSince.Some? && (exists j: nat :: Began(setup, ear, turns, n, j) && now.partialSince == Some(turns[j].readAt))
        && (n > 0 ==> Elapsed(turns[n - 1].decideAt, now.partialSince.value) < setup.frameTimeout)
    decreases n
  {
    hide EarAfter, Heard;
    AfterStep(setup, ear, turns, n);
    if n > 0 {
      PartialClock(setup, ear, turns, n - 1);
      PartialTracksBuffer(setup, ear, turns, n - 1);
      PartialTracksBuffer(setup, ear, turns, n);
      var before, now := EarAfter(setup, ear, turns, n - 1), EarAfter(setup, ear, turns, n);
      if now.buffer != [] {
        ClockStep(setup, before, turns[n - 1]);
        if now.partialSince == before.partialSince && before.buffer != [] && Listen(setup, before, turns[n - 1]).payloads == [] {
          var j: nat :| Began(setup, ear, turns, n - 1, j) && before.partialSince == Some(turns[j].readAt);
          assert Began(setup, ear, turns, n, j);
        } else {
          assert Began(setup, ear, turns, n, n - 1);
        }
      }
    }
  }

  lemma AfterStep(setup: Setup, ear: Ear, turns: seq<Turn>, n: nat)
    requires n <= |turns|
    ensures EarAfter(setup, ear, turns, n)
         == if n == 0 then ear else EarStep(setup, EarAfter(setup, ear, turns, n - 1), turns[n - 1])
  {
  }

  /** Where the partial time of a turn comes from. */
  lemma ClockStep(setup: Setup, before: Ear, t: Turn)
    requires Tracks(before) && EarStep(setup, before, t).buffer != []
    ensures var now, read := EarStep(setup, before, t), Listen(setup, before, t);
      && now.partialSince.Some? && Elapsed(t.decideAt, now.partialSince.value) < setup.frameTimeout
      && if before.buffer != [] && read.payloads == [] then now.partialSince == before.partialSince
         else Heard(setup.limits, t) && now.partialSince == Some(t.readAt)
  {
    hide FrameStream.Scan, FrameStream.Payloads, FrameStream.Recover;
  }

  /** Before the frame timeout nothing is given up. */
  lemma PartialKept(setup: Setup, before: Ear, t: Turn)
    requires var read := Listen(setup, before, t).ear;
      read.partialSince.Some? ==> Elapsed(t.decideAt, read.partialSince.value) < setup.frameTimeout
    ensures EarStep(setup, before, t) == Listen(setup, before, t).ear && Recovered(setup, before, t) == []
  {
  }

  /** Every payload decoded in a turn was carried, in a genuine frame, by the bytes buffered and read. */
  lemma {:induction false} DecodedCarried(setup: Setup, ear: Ear, turns: seq<Turn>, j: nat, payload: Bytes, at: nat)
    requires j < |turns| && DecodedIn(setup, ear, turns, j, payload, at)
    ensures var heard := if Heard(setup.limits, turns[j]) then turns[j].read.bytes else [];
            FrameStream.Carried(setup.codec, setup.limits, EarAfter(setup, ear, turns, j).buffer + heard, payload)
  {
    hide EarAfter, FrameStream.Carried, FrameStream.Verified, FrameStream.Payloads, FrameStream.Scan, FrameStream.Recover;
    var before, t := EarAfter(setup, ear, turns, j), turns[j];
    var bytes := before.buffer + if Heard(setup.limits, t) then t.read.bytes else [];
    var s := FrameStream.Scan(setup.codec, setup.limits, bytes);
    FrameStream.ScanTiles(setup.codec, setup.limits, bytes);
    if payload in Listen(setup, before, t).payloads {
      FrameStream.DeliveredCarried(setup.codec, setup.limits, s.trace, bytes, s.rest, payload);
    } else {
      var left := Listen(setup, before, t).ear.buffer;
      var trace := FrameStream.Recover(setup.codec, setup.limits, left);
      FrameStream.RecoverTiles(setup.codec, setup.limits, left);
      assert FrameStream.Flatten(trace) + [] == left;
      FrameStream.DeliveredCarried(setup.codec, setup.limits, trace, left, [], payload);
      if Heard(setup.limits, t) {
        FrameStream.CarriedBehind(setup.codec, setup.limits, FrameStream.Flatten(s.trace), left, payload);
      } else {
        assert bytes == left;
      }
    }
  }

  /** The bytes heard in the first `n` turns. */
  function HeardBytes(limits: Frame.Limits, turns: seq<Turn>, n: nat): Bytes
    requires n <= |turns|
  {
    if n == 0 then []
    else HeardBytes(limits, turns, n - 1) + if Heard(limits, turns[n - 1]) then turns[n - 1].read.bytes else []
  }

  /** The payloads decoded from the reads of the first `n` turns. */
  function DecodedPayloads(setup: Setup, ear: Ear, turns: seq<Turn>, n: nat): seq<Bytes>
    requires n <= |turns|
  {
    if n == 0 then []
    else DecodedPayloads(setup, ear, turns, n - 1) + Listen(setup, EarAfter(setup, ear, turns, n - 1), turns[n - 1]).payloads
  }

  /** No partial frame had to be given up in turn `m`. */
  ghost predicate InTime(setup: Setup, ear: Ear, turns: seq<Turn>, m: nat)
    requires m < |turns|
  {
    !Expired(setup, Listen(setup, EarAfter(setup, ear, turns, m), turns[m]).ear, turns[m].decideAt)
  }

  /** However the bytes arrive over the turns, as long as no partial frame expires they are scanned as one
      stream. */
  lemma {:induction false} HearsWhole(setup: Setup, turns: seq<Turn>, n: nat)
    requires n <= |turns| && forall m :: 0 <= m < n ==> InTime(setup, Ear([], None), turns, m)
    ensures var s := FrameStream.Scan(setup.codec, setup.limits, HeardBytes(setup.limits, turns, n));
      && EarAfter(setup, Ear([], None), turns, n).buffer == s.rest
      && DecodedPayloads(setup, Ear([], None), turns, n) == FrameStream.Payloads(s.trace)
    decreases n
  {
    hide FrameStream.Scan, FrameStream.Payloads, FrameStream.Recover;
    if n == 0 {
      FrameStream.ShortScan(setup.codec, setup.limits, []);
      FrameStream.EmptySummary();
    } else {
      HearsWhole(setup, turns, n - 1);
      var was, t := HeardBytes(setup.limits, turns, n - 1), turns[n - 1];
      assert InTime(setup, Ear([], None), turns, n - 1);
      if Heard(setup.limits, t) {
        FrameStream.ScanSplit(setup.codec, setup.limits, was, t.read.bytes);
        var s := FrameStream.Scan(setup.codec, setup.limits, was);
        var s2 := FrameStream.Scan(setup.codec, setup.limits, s.rest + t.read.bytes);
        FrameStream.SummaryAppend(s.trace, s2.trace);
      } else {
        assert was + [] == was;
      }
    }
  }

  /** THEOREM: what the peer sends as encoded frames, in whatever pieces it arrives over the turns, is
      decoded to exactly its payloads, in order, with nothing left over. */
  lemma {:induction false} PeerHeard(setup: Setup, turns: seq<Turn>, n: nat, payloads: seq<Bytes>)
    requires Frame.Sound(setup.codec) && FrameStream.Sendable(setup.codec, setup.limits, payloads)
    requires n <= |turns| && forall m :: 0 <= m < n ==> InTime(setup, Ear([], None), turns, m)
    requires HeardBytes(setup.limits, turns, n) == FrameStream.Encodings(setup.codec, setup.limits, payloads)
    ensures DecodedPayloads(setup, Ear([], None), turns, n) == payloads
    ensures EarAfter(setup, Ear([], None), turns, n) == Ear([], None)
  {
    hide FrameStream.Scan, FrameStream.Payloads, FrameStream.Encodings, Frame.Encode, EarAfter, InTime;
    HearsWhole(setup, turns, n);
    FrameStream.ScanEncodings(setup.codec, setup.limits, payloads);
    PartialTracksBuffer(setup, Ear([], None), turns, n);
  }

  /** A genuine frame at the front of an expired buffer is not lost. */
  lemma {:induction false} ExpiredRecovers(setup: Setup, ear: Ear, t: Turn, k: nat, payload: Bytes)
    requires var left := Listen(setup, ear, t).ear;
      Expired(setup, left, t.decideAt) && k <= |left.buffer| && Frame.Genuine(setup.codec, left.buffer[..k], setup.limits, payload)
    ensures Recovered(setup, ear, t) != [] && Recovered(setup, ear, t)[0] == payload && EarStep(setup, ear, t) == Ear([], None)
  {
    var b := Listen(setup, ear, t).ear.buffer;
    hide Listen;
    FrameStream.LookExactly(setup.codec, setup.limits, b, k, payload);
    hide Frame.Genuine, FrameStream.Settle;
  }

  // ------------------------------------------------------------- transmissions over a run

  /** The configured capacities fit an uncompressed snapshot, and the mailbox invariant holds. */
  ghost predicate Sendable(limits: Frame.Limits, m: Mail) {
    && Consistent(m) && limits.Valid()
    && UnitReport.PayloadLen(m.layout) <= limits.payload && UnitReport.PayloadLen(m.layout) + 10 <= limits.frame
  }

  /** Sent with no peer byte undecoded and none heard within the idle gap, from complete and fresh
      inputs, in a frame the peer decodes to exactly them. */
  ghost predicate WellSent(setup: Setup, ear: Ear, turns: seq<Turn>, s: Sent) {
    && s.turn < |turns| && s.at == turns[s.turn].decideAt && s.done == turns[s.turn].doneAt && s.mail == turns[s.turn].mail
    && EarAfter(setup, ear, turns, s.turn + 1).buffer == []
    && (forall j :: 0 <= j <= s.turn && Heard(setup.limits, turns[j]) ==> turns[j].readAt + setup.gap <= s.at)
    && FreshAndComplete(s.mail, s.at, s.payload)
    && Frame.Genuine(setup.codec, s.frame, setup.limits, s.payload)
  }

  /** When the next transmission may start: one period after the previous one was complete. */
  function NotBefore(firstDue: nat, period: nat, sent: seq<Sent>): nat {
    if sent == [] then firstDue else sent[|sent| - 1].done + period
  }

  /** The transmit discipline of a whole run. */
  ghost predicate Disciplined(setup: Setup, ear: Ear, firstDue: nat, turns: seq<Turn>, sent: seq<Sent>) {
    && (forall k :: 0 <= k < |sent| ==> WellSent(setup, ear, turns, sent[k]))
    && (forall k :: 0 < k < |sent| ==> sent[k - 1].done + setup.period <= sent[k].at)
    && (sent != [] ==> firstDue <= sent[0].at)
  }

  /** No byte of the first `n` turns was heard after `at`. */
  ghost predicate HeardBy(limits: Frame.Limits, turns: seq<Turn>, n: nat, at: nat) {
    forall j :: 0 <= j < n && j < |turns| && Heard(limits, turns[j]) ==> turns[j].readAt <= at
  }

  lemma TransmissionWell(setup: Setup, now: Ear, sender: Sender, t: Turn, index: nat)
    requires Frame.Sound(setup.codec) && Sendable(setup.limits, t.mail)
    ensures var sent := Transmission(setup, now, sender, t, index);
      sent.Some? ==>
        && sent.value == Sent(index, t.decideAt, t.doneAt, t.mail, sent.value.payload, sent.value.frame)
        && FreshAndComplete(t.mail, t.decideAt, sent.value.payload)
        && Frame.Genuine(setup.codec, sent.value.frame, setup.limits, sent.value.payload)
        && MaySend(setup, now, sender.due, LastRx(setup, sender, t), t.decideAt)
  {
    OutgoingExactly(t.mail, t.decideAt);
    if Transmission(setup, now, sender, t, index).Some? {
      Frame.EncodeExactly(setup.codec, Outgoing(t.mail, t.decideAt).value, setup.limits);
    }
    hide Outgoing, FreshAndComplete, Frame.Encode, Frame.Genuine, Consistent;
  }

  /** With the validated capacities a payload goes out exactly when the slot is due, nothing undecoded is
      buffered, the line has been idle for the gap, and the mailbox has complete and fresh inputs. */
  lemma TransmissionExactly(setup: Setup, now: Ear, sender: Sender, t: Turn, index: nat)
    requires Sendable(setup.limits, t.mail) && Tracks(now) && LastRx(setup, sender, t) <= t.decideAt
    ensures Transmission(setup, now, sender, t, index).Some? <==>
      (&& sender.due <= t.decideAt && now.buffer == [] && LastRx(setup, sender, t) + setup.gap <= t.decideAt
       && exists p :: FreshAndComplete(t.mail, t.decideAt, p))
  {
    NeverTooLarge(setup, now, sender, t, index);
    OutgoingExactly(t.mail, t.decideAt);
    hide Outgoing, FreshAndComplete, Transmission;
  }

  lemma NeverTooLarge(setup: Setup, now: Ear, sender: Sender, t: Turn, index: nat)
    requires Sendable(setup.limits, t.mail)
    ensures Transmission(setup, now, sender, t, index).Some? <==>
            MaySend(setup, now, sender.due, LastRx(setup, sender, t), t.decideAt) && Outgoing(t.mail, t.decideAt).Some?
  {
    OutgoingExactly(t.mail, t.decideAt);
    if Outgoing(t.mail, t.decideAt).Some? {
      Frame.EncodeSucceeds(setup.codec, Outgoing(t.mail, t.decideAt).value, setup.limits);
    }
    hide Outgoing, Frame.Encode;
  }

  /** A slot is used up, sent or not, exactly when it is due and the line is free; the next one comes a
      period after that turn is done. */
  lemma SlotMoves(setup: Setup, now: Ear, sender: Sender, t: Turn)
    requires Tracks(now) && LastRx(setup, sender, t) <= t.decideAt
    ensures var free := sender.due <= t.decideAt && now.buffer == [] && LastRx(setup, sender, t) + setup.gap <= t.decideAt;
            SenderStep(setup, now, sender, t).due == if free then t.doneAt + setup.period else sender.due
    ensures SenderStep(setup, now, sender, t).lastRx == if Heard(setup.limits, t) then t.readAt else sender.lastRx
  {
  }

  /** What is known of a run's sender after `n` turns. */
  ghost predicate SenderKnown(setup: Setup, ear: Ear, firstDue: nat, start: nat, turns: seq<Turn>, n: nat, s: Sending)
    requires n <= |turns|
  {
    && Disciplined(setup, ear, firstDue, turns, s.sent)
    && NotBefore(firstDue, setup.period, s.sent) <= s.sender.due
    && HeardBy(setup.limits, turns, n, s.sender.lastRx)
    && s.sender.lastRx <= if n == 0 then start else turns[n - 1].doneAt
  }

  lemma {:induction false} AppendSent(setup: Setup, ear: Ear, firstDue: nat, turns: seq<Turn>, sent: seq<Sent>, s: Sent)
    requires Disciplined(setup, ear, firstDue, turns, sent) && WellSent(setup, ear, turns, s)
    requires NotBefore(firstDue, setup.period, sent) <= s.at
    ensures Disciplined(setup, ear, firstDue, turns, sent + [s])
  {
    hide WellSent;
  }

  lemma HeardStep(limits: Frame.Limits, turns: seq<Turn>, n: nat, before: nat, after: nat)
    requires n < |turns| && HeardBy(limits, turns, n, before) && before <= turns[n].readAt
    requires after == if Heard(limits, turns[n]) then turns[n].readAt else before
    ensures HeardBy(limits, turns, n + 1, after)
  {
    hide Heard;
  }

  lemma {:induction false} SentInTurn(setup: Setup, ear: Ear, turns: seq<Turn>, n: nat, sender: Sender)
    requires Frame.Sound(setup.codec) && 0 < n <= |turns| && Sendable(setup.limits, turns[n - 1].mail)
    requires Tracks(EarAfter(setup, ear, turns, n))
    requires HeardBy(setup.limits, turns, n, LastRx(setup, sender, turns[n - 1]))
    requires LastRx(setup, sender, turns[n - 1]) <= turns[n - 1].decideAt
    ensures var sent := Transmission(setup, EarAfter(setup, ear, turns, n), sender, turns[n - 1], n - 1);
            sent.Some? ==>
              && WellSent(setup, ear, turns, sent.value) && sender.due <= sent.value.at && sent.value.done == turns[n - 1].doneAt
              && MaySend(setup, EarAfter(setup, ear, turns, n), sender.due, LastRx(setup, sender, turns[n - 1]), turns[n - 1].decideAt)
  {
    hide EarAfter, Transmission, FreshAndComplete, Frame.Genuine, Sendable, Frame.Sound, Heard, LastRx;
    TransmissionWell(setup, EarAfter(setup, ear, turns, n), sender, turns[n - 1], n - 1);
  }

  lemma {:induction false} SenderStaysKnown(setup: Setup, ear: Ear, sender: Sender, start: nat, turns: seq<Turn>, n: nat)
    requires Frame.Sound(setup.codec) && Tracks(ear) && Ordered(start, turns) && sender.lastRx <= start && n <= |turns|
    requires forall i :: 0 <= i < n ==> Sendable(setup.limits, turns[i].mail)
    ensures SenderKnown(setup, ear, sender.due, start, turns, n, SendingAfter(setup, ear, sender, turns, n))
    decreases n
  {
    hide Frame.Sound, Sendable, EarAfter, Transmission, WellSent, HeardBy;
    if n == 0 {
      assert HeardBy(setup.limits, turns, 0, sender.lastRx) by { NothingHeard(setup.limits, turns, sender.lastRx); }
    } else {
      SenderStaysKnown(setup, ear, sender, start, turns, n - 1);
      var before := SendingAfter(setup, ear, sender, turns, n - 1);
      var t := turns[n - 1];
      PartialTracksBuffer(setup, ear, turns, n);
      HeardStep(setup.limits, turns, n - 1, before.sender.lastRx, LastRx(setup, before.sender, t));
      SentInTurn(setup, ear, turns, n, before.sender);
      SenderKnownStep(setup, ear, sender.due, start, turns, n, before, SendingAfter(setup, ear, sender, turns, n));
    }
  }

  lemma NothingHeard(limits: Frame.Limits, turns: seq<Turn>, at: nat)
    ensures HeardBy(limits, turns, 0, at)
  {
  }

  lemma {:induction false} SenderKnownStep(setup: Setup, ear: Ear, firstDue: nat, start: nat, turns: seq<Turn>, n: nat, before: Sending, after: Sending)
    requires 0 < n <= |turns| && SenderKnown(setup, ear, firstDue, start, turns, n - 1, before) && Ordered(start, turns)
    requires var t := turns[n - 1]; var now := EarAfter(setup, ear, turns, n); var sent := Transmission(setup, now, before.sender, t, n - 1);
      && after == Sending(SenderStep(setup, now, before.sender, t), before.sent + if sent.Some? then [sent.value] else [])
      && (sent.Some? ==> WellSent(setup, ear, turns, sent.value) && before.sender.due <= sent.value.at && sent.value.done == t.doneAt)
      && (sent.Some? ==> MaySend(setup, now, before.sender.due, LastRx(setup, before.sender, t), t.decideAt))
      && HeardBy(setup.limits, turns, n, LastRx(setup, before.sender, t))
    ensures SenderKnown(setup, ear, firstDue, start, turns, n, after)
  {
    hide EarAfter, Transmission, WellSent, HeardBy, Disciplined;
    var sent := Transmission(setup, EarAfter(setup, ear, turns, n), before.sender, turns[n - 1], n - 1);
    if sent.Some? {
      AppendSent(setup, ear, firstDue, turns, before.sent, sent.value);
    } else {
      assert before.sent + [] == before.sent;
    }
  }

  /** THEOREM: over every run, nothing is sent while peer bytes are undecoded or within the idle gap of
      any byte heard, sends start a period after the previous one was complete, and each carries
      complete, fresh inputs in a frame that decodes to them. */
  lemma {:induction false} SendsDisciplined(setup: Setup, ear: Ear, sender: Sender, start: nat, turns: seq<Turn>, n: nat)
    requires Frame.Sound(setup.codec) && Tracks(ear) && Ordered(start, turns) && sender.lastRx <= start && n <= |turns|
    requires forall i :: 0 <= i < n ==> Sendable(setup.limits, turns[i].mail)
    ensures Disciplined(setup, ear, sender.due, turns, SendingAfter(setup, ear, sender, turns, n).sent)
  {
    hide Frame.Sound, Sendable, Disciplined, SendingAfter;
    SenderStaysKnown(setup, ear, sender, start, turns, n);
  }

  // ------------------------------------------------------------------ liveness over a run

  /** The store's facts the worker relies on: every point of the task is listed, and has a sample. */
  ghost predicate Governs(c: Contract, samples: map<string, Sample>) {
    && c.task in c.tasks && samples.Keys == c.definitions.Keys
    && forall n :: n in Owned(c.definitions, c.task) ==> n in c.tasks[c.task]
  }

  /** Some point of the task reads Good. */
  ghost predicate SomeGood(c: Contract, samples: map<string, Sample>) {
    exists n :: n in Owned(c.definitions, c.task) && n in samples && samples[n].quality == Good
  }

  /** The task's points show exactly the batch of this payload, stored at `at`. */
  ghost predicate Shows(c: Contract, samples: map<string, Sample>, payload: Bytes, at: nat) {
    && Refreshes(c, payload)
    && var updates := c.respond(payload).updates;
       forall i :: 0 <= i < |updates| ==> updates[i].name in samples && Reflects(samples[updates[i].name], updates[i], at)
  }

  /** What one payload does to the points, case by case. */
  lemma {:induction false} TakeMeaning(c: Contract, shown: Shown, payload: Bytes, now: nat)
    requires Governs(c, shown.samples)
    ensures var after := TakeOne(c, shown, payload, now);
      && Governs(c, after.samples)
      && (Refreshes(c, payload) ==>
            && Shows(c, after.samples, payload, now) && after.lastValid == now && !after.timedOut && after.received
            && (forall n :: n in Owned(c.definitions, c.task) ==> Names(c.respond(payload).updates, n))
            && (forall n :: n in shown.samples && n !in Owned(c.definitions, c.task) ==> after.samples[n] == shown.samples[n]))
      && (c.respond(payload).Ignore? ==> after == shown)
      && (!Refreshes(c, payload) && !c.respond(payload).Ignore? ==>
            && after.lastValid == shown.lastValid && after.timedOut == shown.timedOut && after.received == shown.received
            && (forall n :: n in Owned(c.definitions, c.task) ==>
                  && after.samples[n].quality == (if shown.timedOut then NoCommunication else Configuration)
                  && Null(after.samples[n].value) && after.samples[n].value.Type() == shown.samples[n].value.Type()
                  && after.samples[n].time == shown.samples[n].time)
            && (forall n :: n in shown.samples && n !in c.tasks[c.task] ==> after.samples[n] == shown.samples[n]))
  {
    hide Zero, Stored, Reflects;
    if Refreshes(c, payload) {
      var updates := c.respond(payload).updates;
      OverlaidMeaning(shown.samples, updates, now);
      forall n | n in shown.samples && n !in Owned(c.definitions, c.task) ensures !Names(updates, n) {
        OthersNotNamed(c, updates, n);
      }
      hide Overlaid, Names, Distinct;
      assert Overlaid(shown.samples, updates, now).Keys == shown.samples.Keys;
    } else {
      assert FailedAt(shown.samples, c.tasks[c.task], FailureQuality(shown)).Keys == shown.samples.Keys;
    }
  }

  lemma OthersNotNamed(c: Contract, updates: seq<Update>, n: string)
    requires Complete(c.definitions, c.task, updates) && n !in Owned(c.definitions, c.task)
    ensures !Names(updates, n)
  {
  }

  /** What is shown was decoded in one of the first `n` turns, at the recorded time. */
  ghost predicate FromPeer(setup: Setup, ear: Ear, turns: seq<Turn>, n: nat, shown: Shown)
    requires n <= |turns|
  {
    exists j, payload :: 0 <= j < n && DecodedIn(setup, ear, turns, j, payload, shown.lastValid)
                         && Shows(setup.contract, shown.samples, payload, shown.lastValid)
  }

  /** A Good point rests on a whole batch from the peer. */
  ghost predicate Backed(setup: Setup, ear: Ear, turns: seq<Turn>, n: nat, shown: Shown)
    requires n <= |turns|
  {
    && Governs(setup.contract, shown.samples)
    && (SomeGood(setup.contract, shown.samples) ==> !shown.timedOut && FromPeer(setup, ear, turns, n, shown))
  }

  lemma NoneGood(c: Contract, shown: Shown, quality: Quality)
    requires Governs(c, shown.samples) && quality != Good
    ensures Governs(c, FailShown(c, shown, quality).samples) && !SomeGood(c, FailShown(c, shown, quality).samples)
  {
    assert FailedAt(shown.samples, c.tasks[c.task], quality).Keys == shown.samples.Keys;
  }

  lemma {:induction false} TakeOneBacked(setup: Setup, ear: Ear, turns: seq<Turn>, n: nat, shown: Shown, j: nat, payload: Bytes, now: nat)
    requires j < n <= |turns| && DecodedIn(setup, ear, turns, j, payload, now) && Backed(setup, ear, turns, n, shown)
    ensures Backed(setup, ear, turns, n, TakeOne(setup.contract, shown, payload, now))
  {
    hide DecodedIn, Shows, Governs, SomeGood, FailShown, Accepts;
    TakeMeaning(setup.contract, shown, payload, now);
    if !Refreshes(setup.contract, payload) && !setup.contract.respond(payload).Ignore? {
      NoneGood(setup.contract, shown, FailureQuality(shown));
    }
  }

  lemma {:induction false} TakeBacked(setup: Setup, ear: Ear, turns: seq<Turn>, n: nat, shown: Shown, j: nat, payloads: seq<Bytes>, now: nat)
    requires j < n <= |turns| && Backed(setup, ear, turns, n, shown)
    requires forall p :: p in payloads ==> DecodedIn(setup, ear, turns, j, p, now)
    ensures Backed(setup, ear, turns, n, Take(setup.contract, shown, payloads, now))
    decreases |payloads|
  {
    hide Backed, DecodedIn, TakeOne;
    if payloads != [] {
      var init, last := payloads[..|payloads| - 1], payloads[|payloads| - 1];
      assert last in payloads;
      TakeBacked(setup, ear, turns, n, shown, j, init, now);
      TakeOneBacked(setup, ear, turns, n, Take(setup.contract, shown, init, now), j, last, now);
    }
  }

  /** After the liveness check a Good point's batch is younger than the receive timeout. */
  ghost predicate Live(setup: Setup, ear: Ear, turns: seq<Turn>, n: nat, shown: Shown)
    requires 0 < n <= |turns|
  {
    SomeGood(setup.contract, shown.samples) ==>
      FromPeer(setup, ear, turns, n, shown) && turns[n - 1].decideAt < shown.lastValid + setup.receiveTimeout
  }

  lemma WatchBacked(setup: Setup, ear: Ear, turns: seq<Turn>, n: nat, shown: Shown)
    requires 0 < n <= |turns| && Backed(setup, ear, turns, n, shown)
    ensures var after := Watch(setup, shown, turns[n - 1].decideAt);
            Backed(setup, ear, turns, n, after) && Live(setup, ear, turns, n, after)
  {
    hide FromPeer, Governs, SomeGood, FailShown;
    NoneGood(setup.contract, shown, NoCommunication);
    SamplesOnly(setup.contract, shown, NoCommunication);
  }

  lemma SamplesOnly(c: Contract, shown: Shown, quality: Quality)
    ensures FailShown(c, shown, quality).lastValid == shown.lastValid
  {
  }

  lemma BackedWidens(setup: Setup, ear: Ear, turns: seq<Turn>, n: nat, shown: Shown)
    requires n < |turns| && Backed(setup, ear, turns, n, shown)
    ensures Backed(setup, ear, turns, n + 1, shown)
  {
    hide DecodedIn, Shows, Governs, SomeGood;
  }

  /** THEOREM: after every completed turn, a Good point implies that the task's points show a whole
      batch decoded from the peer's bytes within the receive timeout; nothing else keeps them Good. */
  lemma {:induction false} GoodTracksLiveness(setup: Setup, ear: Ear, shown: Shown, turns: seq<Turn>, n: nat)
    requires Governs(setup.contract, shown.samples) && !SomeGood(setup.contract, shown.samples) && n <= |turns|
    ensures var after := ShownAfter(setup, ear, shown, turns, n);
            Backed(setup, ear, turns, n, after) && (n > 0 ==> Live(setup, ear, turns, n, after))
    decreases n
  {
    hide Live, ShownStep, FromPeer, EarAfter;
    if n > 0 {
      GoodTracksLiveness(setup, ear, shown, turns, n - 1);
      TurnBacked(setup, ear, ShownAfter(setup, ear, shown, turns, n - 1), turns, n);
    }
  }

  lemma {:induction false} TurnBacked(setup: Setup, ear: Ear, before: Shown, turns: seq<Turn>, n: nat)
    requires 0 < n <= |turns| && Backed(setup, ear, turns, n - 1, before)
    ensures var after := ShownStep(setup, EarAfter(setup, ear, turns, n - 1), before, turns[n - 1]);
            Backed(setup, ear, turns, n, after) && Live(setup, ear, turns, n, after)
  {
    hide Backed, Live, Take, Watch, Listen, Recovered;
    var c, t, was := setup.contract, turns[n - 1], EarAfter(setup, ear, turns, n - 1);
    BackedWidens(setup, ear, turns, n - 1, before);
    TakeBacked(setup, ear, turns, n, before, n - 1, Listen(setup, was, t).payloads, t.readAt);
    var read := Take(c, before, Listen(setup, was, t).payloads, t.readAt);
    TakeBacked(setup, ear, turns, n, read, n - 1, Recovered(setup, was, t), t.decideAt);
    WatchBacked(setup, ear, turns, n, Take(c, read, Recovered(setup, was, t), t.decideAt));
  }

  /** A turn that decodes nothing but ignored payloads, within the receive timeout or after it was
      reported, leaves everything shown as it was: data is not given up early. */
  lemma {:induction false} QuietTurnKeeps(setup: Setup, ear: Ear, shown: Shown, t: Turn)
    requires forall p :: p in Listen(setup, ear, t).payloads || p in Recovered(setup, ear, t) ==> setup.contract.respond(p).Ignore?
    requires shown.timedOut || Elapsed(t.decideAt, shown.lastValid) < setup.receiveTimeout
    ensures ShownStep(setup, ear, shown, t) == shown
  {
    hide Listen, Recovered;
    IgnoredKeep(setup.contract, shown, Listen(setup, ear, t).payloads, t.readAt);
    IgnoredKeep(setup.contract, shown, Recovered(setup, ear, t), t.decideAt);
  }

  lemma {:induction false} IgnoredKeep(c: Contract, shown: Shown, payloads: seq<Bytes>, now: nat)
    requires forall p :: p in payloads ==> c.respond(p).Ignore?
    ensures Take(c, shown, payloads, now) == shown
    decreases |payloads|
  {
    if payloads != [] {
      assert payloads[|payloads| - 1] in payloads;
      IgnoredKeep(c, shown, payloads[..|payloads| - 1], now);
    }
  }

  lemma {:induction false} TakeGoverns(c: Contract, shown: Shown, payloads: seq<Bytes>, now: nat)
    requires Governs(c, shown.samples)
    ensures Governs(c, Take(c, shown, payloads, now).samples)
    decreases |payloads|
  {
    hide TakeOne, Governs;
    if payloads != [] {
      var init := payloads[..|payloads| - 1];
      TakeGoverns(c, shown, init, now);
      TakeMeaning(c, Take(c, shown, init, now), payloads[|payloads| - 1], now);
    }
  }

  lemma {:induction false} LastTaken(c: Contract, shown: Shown, payloads: seq<Bytes>, now: nat)
    requires Governs(c, shown.samples) && payloads != [] && Refreshes(c, payloads[|payloads| - 1])
    ensures var after := Take(c, shown, payloads, now);
            Shows(c, after.samples, payloads[|payloads| - 1], now) && after.lastValid == now && !after.timedOut && after.received
  {
    hide TakeOne, Governs, Shows, Refreshes;
    var init := payloads[..|payloads| - 1];
    TakeGoverns(c, shown, init, now);
    TakeMeaning(c, Take(c, shown, init, now), payloads[|payloads| - 1], now);
  }

  /** THEOREM: a turn shows the last payload it decodes, from the read or from an expired buffer, if that
      refreshes the task. */
  lemma {:induction false} DecodedIsShown(setup: Setup, ear: Ear, shown: Shown, t: Turn)
    requires Governs(setup.contract, shown.samples)
    ensures var read, found, after := Listen(setup, ear, t).payloads, Recovered(setup, ear, t), ShownStep(setup, ear, shown, t);
      && (found != [] && Refreshes(setup.contract, found[|found| - 1]) && setup.receiveTimeout > 0 ==>
            Shows(setup.contract, after.samples, found[|found| - 1], t.decideAt) && after.lastValid == t.decideAt && !after.timedOut)
      && (found == [] && read != [] && Refreshes(setup.contract, read[|read| - 1]) && Elapsed(t.decideAt, t.readAt) < setup.receiveTimeout ==>
            Shows(setup.contract, after.samples, read[|read| - 1], t.readAt) && after.lastValid == t.readAt && !after.timedOut)
  {
    hide Listen, Recovered, Take, Governs, Shows, Refreshes, FailShown;
    var c, read, found := setup.contract, Listen(setup, ear, t).payloads, Recovered(setup, ear, t);
    TakeGoverns(c, shown, read, t.readAt);
    if read != [] && Refreshes(c, read[|read| - 1]) { LastTaken(c, shown, read, t.readAt); }
    if found != [] && Refreshes(c, found[|found| - 1]) { LastTaken(c, Take(c, shown, read, t.readAt), found, t.decideAt); }
    NoneTaken(c, Take(c, shown, read, t.readAt), t.decideAt);
  }

  lemma NoneTaken(c: Contract, shown: Shown, now: nat)
    ensures Take(c, shown, [], now) == shown
  {
  }

  /** Silence for the receive timeout takes every point of the task out of Good, once, and is remembered. */
  lemma {:induction false} SilenceFails(setup: Setup, shown: Shown, now: nat)
    requires Governs(setup.contract, shown.samples) && !shown.timedOut && Elapsed(now, shown.lastValid) >= setup.receiveTimeout
    ensures var after := Watch(setup, shown, now);
      && after.timedOut && after.lastValid == shown.lastValid && after.received == shown.received
      && forall n :: n in Owned(setup.contract.definitions, setup.contract.task) ==>
           n in after.samples && after.samples[n].quality == NoCommunication && Null(after.samples[n].value)
  {
  }

  /** Noise, rejected, ignored and mismatching frames never extend the liveness time: it moves only
      when a payload refreshes, and then to the time of that turn. */
  lemma {:induction false} OnlyRefreshExtends(c: Contract, shown: Shown, payloads: seq<Bytes>, now: nat)
    ensures Take(c, shown, payloads, now).lastValid
         == if exists p :: p in payloads && Refreshes(c, p) then now else shown.lastValid
    decreases |payloads|
  {
    hide TakeOne, Refreshes;
    if payloads != [] {
      var init, last := payloads[..|payloads| - 1], payloads[|payloads| - 1];
      OnlyRefreshExtends(c, shown, init, now);
      OneExtends(c, Take(c, shown, init, now), last, now);
      assert forall p :: p in payloads <==> p in init || p == last by { assert payloads == init + [last]; }
      if Refreshes(c, last) { assert last in payloads; }
    }
  }

  lemma {:induction false} OneExtends(c: Contract, shown: Shown, payload: Bytes, now: nat)
    ensures TakeOne(c, shown, payload, now).lastValid == if Refreshes(c, payload) then now else shown.lastValid
  {
    hide Accepts, FailedAt, Overlaid;
  }
}
